/** What the membership decisions of all hosts of a pool add up to. */
module Arbitration {
  import opened MachineInts
  import opened Hosts
  import opened Scores
  import opened Merge
  import opened Survival
  import opened AnyViews

  // ---------------------------------------------------------------- merge, vote, commit

  /** The facts every host works from: liveset, state-file domain, heartbeat rows, committed weights. */
  datatype Pool = Pool(n: nat, live: HostMap, sfdomain: HostMap, row: seq<HostMap>, weight: seq<U32>)

  ghost predicate ValidPool(p: Pool) {
    && p.n <= MAX_HOST_NUM && |p.row| == p.n && |p.weight| >= p.n
    && p.live <= Configured(p.n) && p.sfdomain <= p.live
    && forall i :: 0 <= i < p.n ==> p.row[i] <= p.live && (i in p.live ==> i in p.row[i])
  }

  /** Host `me` sees the pool's facts, over both channels, for every host with state-file access. */
  ghost predicate Shares(p: Pool, me: nat, hb: HbView, sf: SfView) {
    && ValidPool(p) && me < p.n && WellSized(hb, sf, p.n)
    && sf.weight == p.weight
    && hb.hbdomain * p.live == p.row[me] && sf.sfdomain * p.live == p.sfdomain
    && (me in p.sfdomain ==> sf.sfAccess)
    && forall i :: 0 <= i < p.n && i != me && i in p.sfdomain ==>
         && sf.raw[i].hbdomain * p.live == p.row[i]
         && sf.raw[i].sfdomain * p.live == p.sfdomain
         && hb.raw[i].sfdomain * p.live == p.sfdomain
  }

  /** The common starting point of the merge. */
  function MergeInput(p: Pool): (s: Rows)
    requires |p.row| == p.n
    ensures |s.row| == p.n
  {
    var out := Configured(p.n) - p.sfdomain;
    Rows(seq(p.n, i requires 0 <= i < p.n => if i in out then {} else p.row[i] - out), out)
  }

  /** The partition that the merge leaves standing. */
  function Winners(p: Pool): HostMap
    requires p.n <= MAX_HOST_NUM && |p.row| == p.n && |p.weight| >= p.n
  {
    Survivors(MergeInput(p), p.weight, p.n)
  }

  /** The winners come from the state-file domain, are fully connected, and exist if the domain is not empty. */
  lemma WinnersAreAClique(p: Pool)
    requires ValidPool(p)
    ensures Winners(p) <= p.sfdomain
    ensures forall a, b :: a in Winners(p) && b in Winners(p) ==> b in p.row[a]
    ensures Winners(p) == {} <==> p.sfdomain == {}
  {
    var s := MergeInput(p);
    assert WellFormed(s, p.n) && Reflexive(s, p.n);
    SomebodySurvives(s, p.weight, p.n);
    assert Configured(p.n) - s.removed == p.sfdomain;
    forall a, b | a in Winners(p) && b in Winners(p)
      ensures b in p.row[a]
    {
      SurvivorsSeeEachOther(s, p.weight, p.n, a, b);
    }
  }

  /** What a host's stable views look like after the merge. */
  ghost predicate Resolved(p: Pool, me: nat, hb: HbView, sf: SfView)
    requires ValidPool(p) && me < p.n
  {
    var win := Winners(p);
    && WellSized(hb, sf, p.n) && sf.weight == p.weight
    && sf.sfdomain == p.sfdomain && hb.hbdomain == (if me in win then win else {})
    && (forall i :: 0 <= i < p.n && i != me ==> sf.raw[i].hbdomain == if i in win then win else {})
    && (forall i :: 0 <= i < p.n && i != me && i in p.sfdomain ==>
          sf.raw[i].sfdomain == p.sfdomain && hb.raw[i].sfdomain == p.sfdomain)
    && (me in p.sfdomain ==> sf.sfAccess)
  }

  lemma NobodyLost(p: Pool, me: nat, hb: HbView, sf: SfView)
    requires Shares(p, me, hb, sf)
    ensures var hbRaw := CutRaw(hb.raw, p.live, me, p.row[me], p.sfdomain);
            var sfRaw := CutRaw(sf.raw, p.live, me, p.row[me], p.sfdomain);
            p.sfdomain - LostStateFile(hbRaw, sfRaw, p.n, me) == p.sfdomain
  {
    var hbRaw := CutRaw(hb.raw, p.live, me, p.row[me], p.sfdomain);
    var sfRaw := CutRaw(sf.raw, p.live, me, p.row[me], p.sfdomain);
    forall i | i in p.sfdomain
      ensures i !in LostStateFile(hbRaw, sfRaw, p.n, me)
    {
      if i != me {
        assert i in sfRaw[i].sfdomain * Configured(p.n);
        assert i in hbRaw[i].sfdomain * Configured(p.n);
      }
    }
  }

  lemma SameStart(p: Pool, me: nat, hb: HbView, sf: SfView)
    requires Shares(p, me, hb, sf)
    ensures StartRows(CutRaw(sf.raw, p.live, me, p.row[me], p.sfdomain), p.sfdomain, p.n) == MergeInput(p)
  {
    var a := StartRows(CutRaw(sf.raw, p.live, me, p.row[me], p.sfdomain), p.sfdomain, p.n);
    assert p.row[me] * p.live == p.row[me];
    assert forall i :: 0 <= i < p.n ==> a.row[i] == MergeInput(p).row[i];
  }

  lemma MergedRowsOf(p: Pool)
    requires ValidPool(p)
    ensures var r := Reduce(MergeInput(p), p.weight, p.n);
            |r.row| == p.n && forall i :: 0 <= i < p.n ==> r.row[i] == if i in Winners(p) then Winners(p) else {}
  {
    ReduceLeavesClique(MergeInput(p), p.weight, p.n);
  }

  lemma SharedViewsResolve(p: Pool, me: nat, hb: HbView, sf: SfView)
    requires Shares(p, me, hb, sf)
    ensures var v := MergedViews(hb, sf, p.live, p.n, me, p.row[me], p.sfdomain);
            Resolved(p, me, v.0, v.1) && v.1.excluded == sf.excluded
  {
    NobodyLost(p, me, hb, sf);
    SameStart(p, me, hb, sf);
    MergedRowsOf(p);
  }

  /** The signed 32-bit size under which the winners stand in the vote. */
  function WinningSize(p: Pool): int
    requires p.n <= MAX_HOST_NUM && |p.row| == p.n && |p.weight| >= p.n
  {
    PartitionSize(p.sfdomain, Winners(p), p.weight, p.n)
  }

  lemma ResolvedSizes(p: Pool, me: nat, hb: HbView, sf: SfView, i: nat)
    requires ValidPool(p) && me < p.n && Resolved(p, me, hb, sf) && i < p.n
    ensures SizeOf(hb, sf, p.n, me, i) == if i in Winners(p) then WinningSize(p) else 0
  {
    WinnersAreAClique(p);
    EmptyMap(p.sfdomain * {}, p.weight, p.n);
  }

  lemma ResolvedVote(p: Pool, me: nat, hb: HbView, sf: SfView)
    requires ValidPool(p) && me < p.n && Resolved(p, me, hb, sf)
    ensures InLargest(hb, sf, p.n, me) <==> me in Winners(p) && WinningSize(p) > 0
  {
    WinnersAreAClique(p);
    forall i | 0 <= i < p.n
      ensures SizeOf(hb, sf, p.n, me, i) == if i in Winners(p) then WinningSize(p) else 0
    {
      ResolvedSizes(p, me, hb, sf, i);
    }
    var l := Leader(hb, sf, p.n, me, p.n);
    assert l >= 0 ==> l in Winners(p);
    assert me in Winners(p) && WinningSize(p) > 0 ==> l >= 0;
  }

  /** The vote does not stand in the winners' way: they hold the whole domain or have a positive size. */
  ghost predicate Decisive(p: Pool)
    requires p.n <= MAX_HOST_NUM && |p.row| == p.n && |p.weight| >= p.n
  {
    p.sfdomain <= Winners(p) || WinningSize(p) > 0
  }

  lemma ResolvedRule1(p: Pool, me: nat, hb: HbView, sf: SfView)
    requires ValidPool(p) && me < p.n && Resolved(p, me, hb, sf)
    ensures Rule1(hb, sf, p.live, p.n, me) <==> me in Winners(p) && Decisive(p)
  {
    WinnersAreAClique(p);
    var hb', sf' := hb.(hbdomain := hb.hbdomain * Configured(p.n)), sf.(sfdomain := sf.sfdomain * Configured(p.n));
    assert hb'.hbdomain == hb.hbdomain && sf'.sfdomain == sf.sfdomain;
    assert hb'.hbdomain * p.live == hb.hbdomain && sf'.sfdomain * p.live == p.sfdomain;
    ResolvedVote(p, me, hb', sf');
  }

  lemma ResolvedRule2(p: Pool, me: nat, hb: HbView, sf: SfView)
    requires ValidPool(p) && me < p.n && Resolved(p, me, hb, sf) && me !in sf.excluded
    ensures !Rule2(hb, sf, p.live, p.n, me)
  {
    WinnersAreAClique(p);
    assert me in hb.hbdomain * p.live ==> HasAccess(hb, sf, me, me);
  }

  /**
   Merge then vote elects exactly one clique: a non-excluded host passes the survival test if and
   only if the merge kept it, provided the election is decisive, and nobody passes if it is not.
   */
  lemma MergeThenVoteElectsWinners(p: Pool, me: nat, hb: HbView, sf: SfView)
    requires Shares(p, me, hb, sf) && me !in sf.excluded
    ensures var v := MergedViews(hb, sf, p.live, p.n, me, p.row[me], p.sfdomain);
            Survives(v.0, v.1, p.live, p.n, me) <==> me in Winners(p) && Decisive(p)
  {
    var v := MergedViews(hb, sf, p.live, p.n, me, p.row[me], p.sfdomain);
    SharedViewsResolve(p, me, hb, sf);
    ResolvedRule1(p, me, v.0, v.1);
    ResolvedRule2(p, me, v.0, v.1);
  }

  /** Below a total weight of 2^23 the election is always decisive. */
  lemma LightPoolsAreDecisive(p: Pool)
    requires ValidPool(p) && Weight(Configured(p.n), p.weight, p.n) < 0x80_0000
    ensures Decisive(p)
  {
    WinnersAreAClique(p);
    if Winners(p) != {} {
      var x :| x in Winners(p);
      assert x in p.sfdomain * Winners(p);
      CountStrict({}, p.sfdomain * Winners(p), p.n, x);
      PartitionSizeExact(p.sfdomain, Winners(p), p.weight, p.n);
    }
  }

  /** Ten hosts at the greatest legal weight; the first nine see one another, the last one sees nobody else. */
  function TenHosts(): Pool {
    var row := seq(10, i => if i < 9 then Configured(9) else {9});
    Pool(10, Configured(10), Configured(10), row, seq(10, _ => MAX_LEGAL_WEIGHT))
  }

  lemma TenHostsWeigh(w: seq<U32>)
    requires w == seq(10, _ => MAX_LEGAL_WEIGHT)
    ensures Weight(Configured(9), w, 10) == 9 * MAX_LEGAL_WEIGHT && Count(Configured(9), 10) == 9
    ensures Weight({9}, w, 10) == MAX_LEGAL_WEIGHT
  {
    FullPool(w, 9);
    EmptyMap({9}, w, 9);
  }

  /** Nine hosts that see one another outweigh the tenth. */
  lemma NineOutweighOne(s: Rows, w: seq<U32>)
    requires |s.row| == 10 && s.removed == {} && w == seq(10, _ => MAX_LEGAL_WEIGHT)
    requires (forall i :: 0 <= i < 9 ==> s.row[i] == Configured(9)) && s.row[9] == {9}
    ensures Survivors(s, w, 10) == Configured(9)
  {
    TenHostsWeigh(w);
    ScoreIsLexicographic({9}, Configured(9), w, 10);
    MergeKeepsBestPartition(s, w, 10, 0);
  }

  lemma NineOfTenWrap(w: seq<U32>)
    requires w == seq(10, _ => MAX_LEGAL_WEIGHT)
    ensures PartitionSize(Configured(10), Configured(9), w, 10) < 0
  {
    TenHostsWeigh(w);
    assert Configured(10) * Configured(9) == Configured(9);
  }

  lemma TenHostsAreValid(p: Pool)
    requires p == TenHosts()
    ensures ValidPool(p) && p.sfdomain == Configured(10) && p.weight == seq(10, _ => MAX_LEGAL_WEIGHT)
    ensures (forall i :: 0 <= i < 9 ==> p.row[i] == Configured(9)) && p.row[9] == {9}
  {
  }

  /** With everybody on the state file the merge starts from the rows as they are. */
  lemma FullDomainStart(p: Pool)
    requires |p.row| == p.n && p.sfdomain == Configured(p.n)
    ensures MergeInput(p) == Rows(p.row, {})
  {
    assert Configured(p.n) - p.sfdomain == {};
    assert forall i :: 0 <= i < p.n ==> MergeInput(p).row[i] == p.row[i];
  }

  lemma TenHostsMerge(p: Pool)
    requires ValidPool(p) && p.n == 10 && p.sfdomain == Configured(10) && p.weight == seq(10, _ => MAX_LEGAL_WEIGHT)
    requires (forall i :: 0 <= i < 9 ==> p.row[i] == Configured(9)) && p.row[9] == {9}
    ensures Winners(p) == Configured(9) && !Decisive(p)
  {
    FullDomainStart(p);
    NineOutweighOne(Rows(p.row, {}), p.weight);
    NineOfTenWrap(p.weight);
    assert 9 in p.sfdomain && 9 !in Winners(p);
  }

  /**
   The merge keeps nine of ten hosts, but their size wraps below zero, so nobody wins the vote: every host that shares
   these views fails the survival test and fences itself.
   */
  lemma TenHostsElectNobody(p: Pool, me: nat, hb: HbView, sf: SfView)
    requires p == TenHosts() && Shares(p, me, hb, sf) && me !in sf.excluded
    ensures ValidPool(p) && Winners(p) == Configured(9) && !Decisive(p)
    ensures var v := MergedViews(hb, sf, p.live, p.n, me, p.row[me], p.sfdomain);
      !Survives(v.0, v.1, p.live, p.n, me)
  {
    TenHostsAreValid(p);
    TenHostsMerge(p);
    MergeThenVoteElectsWinners(p, me, hb, sf);
  }

  /** Every armed survivor whose SR2 flag was clear commits exactly the winners as its new liveset. */
  lemma SurvivorsCommitWinners(p: Pool, me: nat, hb: HbView, sf: SfView, proposed: HostMap)
    requires Shares(p, me, hb, sf) && me !in sf.excluded && p.live <= proposed
    ensures var v := MergedViews(hb, sf, p.live, p.n, me, p.row[me], p.sfdomain);
            Survives(v.0, v.1, p.live, p.n, me) ==>
              var sr2 := NewSR2(v.0, v.1, p.live, p.n, me, false);
              && !sr2 && Committed(p.live, proposed - Dropped(v.0, v.1, p.live, p.n, sr2), true) == Winners(p)
              && Dropped(v.0, v.1, p.live, p.n, sr2) == Configured(p.n) - Winners(p)
  {
    var v := MergedViews(hb, sf, p.live, p.n, me, p.row[me], p.sfdomain);
    WinnersAreAClique(p);
    SharedViewsResolve(p, me, hb, sf);
    ResolvedRule1(p, me, v.0, v.1);
    ResolvedRule2(p, me, v.0, v.1);
    if Survives(v.0, v.1, p.live, p.n, me) {
      var dropped := Dropped(v.0, v.1, p.live, p.n, false);
      assert dropped == Configured(p.n) - Winners(p);
      assert p.live * (proposed - dropped) == Winners(p);
      if p.live <= proposed - dropped {
        assert p.live * (proposed - dropped) == p.live;
      }
    }
  }

  // ---------------------------------------------------------------- agreement

  /** When the comparison loop finds no disagreement the state-file domain is inside the heartbeat domain. */
  lemma AgreementMakesVoteUnnecessary(hb: HbView, sf: SfView, live: HostMap, n: nat, me: nat)
    requires WellSized(hb, sf, n) && me < n && ViewsAgree(hb, sf, live, n, me)
    requires me in hb.hbdomain * live
    requires forall i :: 0 <= i < n && i != me && i in sf.sfdomain * live ==> i in sf.raw[i].hbdomain
    ensures var conf := Configured(n);
            sf.sfdomain * conf * live <= hb.hbdomain * conf * live
    ensures sf.sfdomain * Configured(n) * live != {} ==> Rule1(hb, sf, live, n, me)
  {
    var conf := Configured(n);
    var myHb, mySf := hb.hbdomain * conf * live, sf.sfdomain * conf * live;
    forall i | i in mySf
      ensures i in myHb
    {
      if i != me {
        assert AgreesWith(hb, sf, live, n, i);
        assert i in sf.raw[i].hbdomain * conf * live;
      }
    }
  }

  // ---------------------------------------------------------------- rounds that need no merge

  /** A host that agrees with everybody has the same row as every host on the state file. */
  lemma AgreedRows(p: Pool, me: nat, hb: HbView, sf: SfView)
    requires Shares(p, me, hb, sf) && ViewsAgree(hb, sf, p.live, p.n, me)
    ensures p.sfdomain <= p.row[me] && forall i :: i in p.sfdomain ==> p.row[i] == p.row[me]
  {
    var conf := Configured(p.n);
    assert hb.hbdomain * conf * p.live == p.row[me] && sf.sfdomain * conf * p.live == p.sfdomain;
    forall i | i in p.sfdomain
      ensures p.row[i] == p.row[me]
    {
      if i != me {
        assert AgreesWith(hb, sf, p.live, p.n, i);
        assert sf.raw[i].hbdomain * conf * p.live == p.row[i];
      }
    }
  }

  /** With one row for all, the merge strikes nobody out of the state-file domain. */
  lemma EqualRowsStay(p: Pool, row: HostMap)
    requires ValidPool(p) && p.sfdomain <= row && forall i :: i in p.sfdomain ==> p.row[i] == row
    ensures Winners(p) == p.sfdomain
  {
    var s := MergeInput(p);
    var conf := Configured(p.n);
    forall i | i in p.sfdomain
      ensures s.row[i] == p.sfdomain
    {
      assert p.row[i] - (conf - p.sfdomain) == p.sfdomain;
    }
    assert p.sfdomain + s.removed == conf;
    assert Stable(s, p.weight, p.n);
    assert conf - s.removed == p.sfdomain;
  }

  /**
   When the comparison succeeds, every host that shares the facts survives by Rule 1, whether or not it is on the state
   file itself, and commits what the merge would have elected: the state-file domain.
   */
  lemma AgreementElectsDomain(p: Pool, me: nat, hb: HbView, sf: SfView, proposed: HostMap)
    requires Shares(p, me, hb, sf) && ViewsAgree(hb, sf, p.live, p.n, me) && p.live <= proposed
    requires p.sfdomain != {}
    ensures Winners(p) == p.sfdomain && Rule1(hb, sf, p.live, p.n, me)
    ensures Dropped(hb, sf, p.live, p.n, false) == Configured(p.n) - Winners(p)
    ensures Committed(p.live, proposed - Dropped(hb, sf, p.live, p.n, false), true) == Winners(p)
  {
    var conf := Configured(p.n);
    AgreedRows(p, me, hb, sf);
    EqualRowsStay(p, p.row[me]);
    assert hb.hbdomain * conf * p.live == p.row[me] && sf.sfdomain * conf * p.live == p.sfdomain;
    var dropped := Dropped(hb, sf, p.live, p.n, false);
    assert dropped == conf - p.sfdomain;
    assert p.live * (proposed - dropped) == p.sfdomain;
    assert p.live <= proposed - dropped ==> p.live * (proposed - dropped) == p.live;
  }

  /**
   A raised SR2 flag outlives a round that is won by Rule 1, and makes it keep whoever is seen by heartbeat: with
   somebody on the state file again, the survivor commits its whole row instead of the elected set.
   */
  lemma RaisedFlagKeepsTheRow(p: Pool, me: nat, hb: HbView, sf: SfView, proposed: HostMap)
    requires Shares(p, me, hb, sf) && ViewsAgree(hb, sf, p.live, p.n, me) && p.live <= proposed
    requires p.sfdomain != {}
    ensures Survives(hb, sf, p.live, p.n, me) && NewSR2(hb, sf, p.live, p.n, me, true)
    ensures Committed(p.live, proposed - Dropped(hb, sf, p.live, p.n, true), true) == p.row[me]
    ensures Winners(p) <= p.row[me]
  {
    AgreedRows(p, me, hb, sf);
    AgreementElectsDomain(p, me, hb, sf, proposed);
    assert hb.hbdomain * p.live == p.row[me];
    var dropped := Dropped(hb, sf, p.live, p.n, true);
    assert dropped == Configured(p.n) - p.row[me];
    assert p.live * (proposed - dropped) == p.row[me];
    OnlyArmedHostsCommit(p.live, proposed - dropped, true);
  }

  /** After a merge the flag makes no difference: whoever survives commits the elected set. */
  lemma RaisedFlagAfterMerge(p: Pool, me: nat, hb: HbView, sf: SfView, proposed: HostMap)
    requires Shares(p, me, hb, sf) && me !in sf.excluded && p.live <= proposed
    requires me in Winners(p) && Decisive(p)
    ensures var v := MergedViews(hb, sf, p.live, p.n, me, p.row[me], p.sfdomain);
            && NewSR2(v.0, v.1, p.live, p.n, me, true)
            && Committed(p.live, proposed - Dropped(v.0, v.1, p.live, p.n, true), true) == Winners(p)
  {
    var v := MergedViews(hb, sf, p.live, p.n, me, p.row[me], p.sfdomain);
    SharedViewsResolve(p, me, hb, sf);
    ResolvedRule1(p, me, v.0, v.1);
    ResolvedCommit(p, me, v.0, v.1, proposed);
  }

  lemma ResolvedCommit(p: Pool, me: nat, hb: HbView, sf: SfView, proposed: HostMap)
    requires ValidPool(p) && me < p.n && Resolved(p, me, hb, sf) && me in Winners(p) && p.live <= proposed
    ensures Committed(p.live, proposed - Dropped(hb, sf, p.live, p.n, true), true) == Winners(p)
  {
    WinnersAreAClique(p);
    var dropped := Dropped(hb, sf, p.live, p.n, true);
    assert dropped == Configured(p.n) - Winners(p);
    assert p.live * (proposed - dropped) == Winners(p);
    OnlyArmedHostsCommit(p.live, proposed - dropped, true);
  }

  /** With nobody of the liveset on the state file, a Rule-1 survivor commits nobody, a Rule-2 survivor whom it sees. */
  lemma EmptyDomainCommits(p: Pool, me: nat, hb: HbView, sf: SfView, proposed: HostMap, sr2: bool)
    requires Shares(p, me, hb, sf) && p.live <= proposed && p.sfdomain == {}
    ensures Winners(p) == {}
    ensures Committed(p.live, proposed - Dropped(hb, sf, p.live, p.n, sr2), true) == if sr2 then p.row[me] else {}
    ensures !sr2 ==> Dropped(hb, sf, p.live, p.n, sr2) == Configured(p.n) - Winners(p)
  {
    WinnersAreAClique(p);
    var dropped, target := Dropped(hb, sf, p.live, p.n, sr2), if sr2 then p.row[me] else {};
    assert dropped == Configured(p.n) - target;
    assert p.live * (proposed - dropped) == target;
    assert p.live <= proposed - dropped ==> p.live * (proposed - dropped) == p.live;
  }

  /**
   So a host that has lost the state file can pass the test outside the elected set: host 1 sees host 0, agrees with it,
   and survives, although only host 0 is in the new liveset.
   */
  lemma HostOffStatefileSurvives() returns (p: Pool, hb: HbView, sf: SfView)
    ensures Shares(p, 1, hb, sf) && 1 in p.live && ViewsAgree(hb, sf, p.live, p.n, 1)
    ensures Winners(p) == {0} && Survives(hb, sf, p.live, p.n, 1)
  {
    var both: HostMap := {0, 1};
    p := Pool(2, both, {0}, [both, both], [1, 1]);
    var raw := Raw(both, both, both, {0});
    hb, sf := HbView(both, [raw, raw]), SfView({0}, [raw, raw], [1, 1], {}, false);
    assert Configured(2) == both;
    assert both * both == both && {0} * both == {0};
    AgreementElectsDomain(p, 1, hb, sf, both);
  }
}
