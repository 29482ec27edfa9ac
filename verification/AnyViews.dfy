/** What the comparison, the merge, the vote and the survival rules do on any views, shared or not (daemon/sm.c). */
module AnyViews {
  import opened MachineInts
  import opened Hosts
  import opened Scores
  import opened Merge
  import opened Survival

  // ---------------------------------------------------------------- merge

  /** The merge starts from well-formed rows, whatever the views are. */
  lemma MergeStarts(sf: SfView, live: HostMap, n: nat, me: nat, myHb: HostMap, mySf: HostMap, sfdomain: HostMap)
    requires |sf.raw| == n && live <= Configured(n)
    ensures WellFormed(StartRows(CutRaw(sf.raw, live, me, myHb, mySf), sfdomain, n), n)
  {
  }

  /** Host `i` has lost the state file, as far as its heartbeat or its slot tells: it sees no live host there. */
  ghost predicate SeesNobodyThere(hb: HbView, sf: SfView, live: HostMap, n: nat, i: nat)
    requires |hb.raw| == n && |sf.raw| == n && i < n
  {
    hb.raw[i].sfdomain * live * Configured(n) == {} || sf.raw[i].sfdomain * live * Configured(n) == {}
  }

  lemma MergedDomain(hb: HbView, sf: SfView, live: HostMap, n: nat, me: nat, myHb: HostMap, mySf: HostMap, i: nat)
    requires WellSized(hb, sf, n) && me < n && i < n
    ensures var v := MergedViews(hb, sf, live, n, me, myHb, mySf);
            v.1.sfdomain <= mySf &&
            (i in v.1.sfdomain <==> i in mySf && (i == me || !SeesNobodyThere(hb, sf, live, n, i)))
  {
    var hbRaw, sfRaw := CutRaw(hb.raw, live, me, myHb, mySf), CutRaw(sf.raw, live, me, myHb, mySf);
    assert i != me ==> hbRaw[i].sfdomain == hb.raw[i].sfdomain * live && sfRaw[i].sfdomain == sf.raw[i].sfdomain * live;
  }

  /**
   Whatever the views are, the merge takes a host out of the state-file domain exactly if it has lost the state file;
   and a host outside the merged domain has no row, is in nobody's row, and so is not elected.
   */
  lemma LostHostsLeaveTheMerge(hb: HbView, sf: SfView, live: HostMap, n: nat, me: nat, myHb: HostMap, mySf: HostMap,
                               i: nat)
    requires WellSized(hb, sf, n) && me < n && i < n && live <= Configured(n)
    ensures var v := MergedViews(hb, sf, live, n, me, myHb, mySf);
            && (i in v.1.sfdomain <==> i in mySf && (i == me || !SeesNobodyThere(hb, sf, live, n, i)))
            && (i !in v.1.sfdomain ==>
                  && i !in v.0.hbdomain && v.1.raw[i].hbdomain == {}
                  && forall k :: 0 <= k < n ==> i !in v.1.raw[k].hbdomain)
  {
    var sfRaw := CutRaw(sf.raw, live, me, myHb, mySf);
    var v := MergedViews(hb, sf, live, n, me, myHb, mySf);
    var s := StartRows(sfRaw, v.1.sfdomain, n);
    MergedDomain(hb, sf, live, n, me, myHb, mySf, i);
    MergeStarts(sf, live, n, me, myHb, mySf, v.1.sfdomain);
    ReduceLeavesClique(s, sf.weight, n);
  }

  /** The heartbeat map that host `k` has published on the state file; for the local host it is the live one. */
  function Published(sf: SfView, me: nat, myHb: HostMap, k: nat): HostMap
    requires k < |sf.raw|
  {
    if k == me then myHb else sf.raw[k].hbdomain
  }

  /**
   Whatever the views are, the rows that the merge leaves are one clique: whoever is in a row was in the map that its
   host had published, has the same row, and both are in the merged state-file domain.
   */
  lemma MergedRowsAreOneClique(hb: HbView, sf: SfView, live: HostMap, n: nat, me: nat, myHb: HostMap, mySf: HostMap,
                               i: nat, k: nat)
    requires WellSized(hb, sf, n) && me < n && i < n && k < n && live <= Configured(n)
    ensures var v := MergedViews(hb, sf, live, n, me, myHb, mySf);
            && v.0.hbdomain == v.1.raw[me].hbdomain
            && (i in v.1.raw[k].hbdomain ==>
                  && i in v.1.sfdomain && k in v.1.sfdomain && i in live && i in Published(sf, me, myHb, k)
                  && v.1.raw[i].hbdomain == v.1.raw[k].hbdomain && k in v.1.raw[i].hbdomain)
  {
    var sfRaw := CutRaw(sf.raw, live, me, myHb, mySf);
    var v := MergedViews(hb, sf, live, n, me, myHb, mySf);
    var s := StartRows(sfRaw, v.1.sfdomain, n);
    MergeStarts(sf, live, n, me, myHb, mySf, v.1.sfdomain);
    ReduceLeavesClique(s, sf.weight, n);
  }

  /**
   If every host of the merged state-file domain has itself in its published map, the merge leaves somebody, unless
   that domain is empty.
   */
  lemma MergeLeavesSomebody(hb: HbView, sf: SfView, live: HostMap, n: nat, me: nat, myHb: HostMap, mySf: HostMap)
    returns (k: nat)
    requires WellSized(hb, sf, n) && me < n && live <= Configured(n) && mySf <= live
    requires forall i :: i in mySf ==> i in Published(sf, me, myHb, i)
    ensures var v := MergedViews(hb, sf, live, n, me, myHb, mySf);
            v.1.sfdomain != {} ==> k < n && k in v.1.raw[k].hbdomain
  {
    var sfRaw := CutRaw(sf.raw, live, me, myHb, mySf);
    var v := MergedViews(hb, sf, live, n, me, myHb, mySf);
    var s := StartRows(sfRaw, v.1.sfdomain, n);
    k := 0;
    if v.1.sfdomain != {} {
      MergeStarts(sf, live, n, me, myHb, mySf, v.1.sfdomain);
      MergeStartsReflexive(sf, live, n, me, myHb, mySf, v.1.sfdomain);
      var x :| x in v.1.sfdomain;
      assert x in Configured(n) - s.removed;
      k := SomeSurvivor(s, sf.weight, n);
    }
  }

  lemma MergeStartsReflexive(sf: SfView, live: HostMap, n: nat, me: nat, myHb: HostMap, mySf: HostMap,
                             sfdomain: HostMap)
    requires |sf.raw| == n && sfdomain <= mySf <= live
    requires forall i :: i in mySf ==> i < n ==> i in Published(sf, me, myHb, i)
    ensures Reflexive(StartRows(CutRaw(sf.raw, live, me, myHb, mySf), sfdomain, n), n)
  {
  }

  lemma SomeSurvivor(s: Rows, w: seq<U32>, n: nat) returns (k: nat)
    requires n <= |w| && n <= MAX_HOST_NUM && WellFormed(s, n) && Reflexive(s, n) && Configured(n) - s.removed != {}
    ensures k < n && k in Reduce(s, w, n).row[k]
  {
    ReduceLeavesClique(s, w, n);
    SomebodySurvives(s, w, n);
    k :| k in Survivors(s, w, n);
  }

  /** What the merge does to the other maps: the other rows are cut to the liveset, the local ones follow the domain. */
  lemma MergedCopies(hb: HbView, sf: SfView, live: HostMap, n: nat, me: nat, myHb: HostMap, mySf: HostMap, i: nat)
    requires WellSized(hb, sf, n) && me < n && i < n
    ensures var v := MergedViews(hb, sf, live, n, me, myHb, mySf);
            if i == me then v.0.raw[i].sfdomain == v.1.raw[i].sfdomain == v.1.sfdomain * live
            else
              && v.0.raw[i].hbdomain == hb.raw[i].hbdomain * live
              && v.0.raw[i].sfdomain == hb.raw[i].sfdomain * live && v.1.raw[i].sfdomain == sf.raw[i].sfdomain * live
  {
    var lost := LostStateFile(CutRaw(hb.raw, live, me, myHb, mySf), CutRaw(sf.raw, live, me, myHb, mySf), n, me);
    assert mySf * live - lost == (mySf - lost) * live;
  }

  // ---------------------------------------------------------------- comparison

  /** A peer in neither local domain never causes disagreement, whatever its copies say. */
  lemma UnseenPeersDoNotMatter(hb: HbView, sf: SfView, live: HostMap, n: nat, me: nat, i: nat, x: Raw, y: Raw)
    requires WellSized(hb, sf, n) && i < n && i !in hb.hbdomain && i !in sf.sfdomain
    ensures ViewsAgree(hb.(raw := hb.raw[i := x]), sf.(raw := sf.raw[i := y]), live, n, me) ==
            ViewsAgree(hb, sf, live, n, me)
  {
    var hb', sf' := hb.(raw := hb.raw[i := x]), sf.(raw := sf.raw[i := y]);
    forall k | 0 <= k < n
      ensures AgreesWith(hb', sf', live, n, k) == AgreesWith(hb, sf, live, n, k)
    {
    }
  }

  /** Each channel over which a live peer is seen must carry both maps as they are held here. */
  lemma SeenPeersMustAgree(hb: HbView, sf: SfView, live: HostMap, n: nat, me: nat, i: nat)
    requires WellSized(hb, sf, n) && i < n && i != me && i in live && ViewsAgree(hb, sf, live, n, me)
    ensures var bits := Configured(n) * live;
            && (i in hb.hbdomain ==>
                  hb.raw[i].hbdomain * bits == hb.hbdomain * bits && hb.raw[i].sfdomain * bits == sf.sfdomain * bits)
            && (i in sf.sfdomain ==>
                  sf.raw[i].hbdomain * bits == hb.hbdomain * bits && sf.raw[i].sfdomain * bits == sf.sfdomain * bits)
  {
    assert AgreesWith(hb, sf, live, n, i);
    Regroup(hb.hbdomain, n, live);
    Regroup(sf.sfdomain, n, live);
    Regroup(hb.raw[i].hbdomain, n, live);
    Regroup(hb.raw[i].sfdomain, n, live);
    Regroup(sf.raw[i].hbdomain, n, live);
    Regroup(sf.raw[i].sfdomain, n, live);
  }

  /** If they all do, the comparison succeeds. */
  lemma CurrentCopiesAgree(hb: HbView, sf: SfView, live: HostMap, n: nat, me: nat)
    requires WellSized(hb, sf, n)
    requires forall i :: 0 <= i < n && i != me && i in live && i in hb.hbdomain ==>
               hb.raw[i].hbdomain == hb.hbdomain && hb.raw[i].sfdomain == sf.sfdomain
    requires forall i :: 0 <= i < n && i != me && i in live && i in sf.sfdomain ==>
               sf.raw[i].hbdomain == hb.hbdomain && sf.raw[i].sfdomain == sf.sfdomain
    ensures ViewsAgree(hb, sf, live, n, me)
  {
    forall i | 0 <= i < n && i != me && i in live
      ensures AgreesWith(hb, sf, live, n, i)
    {
    }
  }

  lemma Regroup(m: HostMap, n: nat, live: HostMap)
    ensures m * (Configured(n) * live) == m * Configured(n) * live
  {
  }

  // ---------------------------------------------------------------- vote and survival rules

  /** The partition of host `k`, as its own maps show it to host `me`. */
  function PartitionOf(hb: HbView, sf: SfView, me: nat, k: nat): HostMap
    requires k < |sf.raw|
  {
    if k == me then sf.sfdomain * hb.hbdomain else sf.raw[k].sfdomain * sf.raw[k].hbdomain
  }

  /**
   Whatever the views are, in a light pool the vote goes to the heaviest of the partitions that hosts on the state file
   show: by weight, then by number of hosts, and to the lowest of its hosts that show it.
   */
  lemma HeaviestPartitionLeads(hb: HbView, sf: SfView, n: nat, me: nat, i: nat)
    requires WellSized(hb, sf, n) && me < n && Weight(Configured(n), sf.weight, n) < 0x80_0000
    requires i < n && i in sf.sfdomain && i in PartitionOf(hb, sf, me, i)
    ensures var l := Leader(hb, sf, n, me, n);
            l >= 0 && l in sf.sfdomain &&
            var mine, best := PartitionOf(hb, sf, me, i), PartitionOf(hb, sf, me, l);
            || Weight(mine, sf.weight, n) < Weight(best, sf.weight, n)
            || (Weight(mine, sf.weight, n) == Weight(best, sf.weight, n) &&
                (Count(mine, n) < Count(best, n) || (Count(mine, n) == Count(best, n) && l <= i)))
  {
    SizeIsOfPartition(hb, sf, n, me, i);
    CountStrict({}, PartitionOf(hb, sf, me, i), n, i);
    var l := Leader(hb, sf, n, me, n);
    assert SizeOf(hb, sf, n, me, i) > 0;
    SizeIsOfPartition(hb, sf, n, me, l);
    PackedSizeIsLexicographic(PartitionOf(hb, sf, me, l), PartitionOf(hb, sf, me, i), sf.weight, n);
  }

  lemma SizeIsOfPartition(hb: HbView, sf: SfView, n: nat, me: nat, i: nat)
    requires WellSized(hb, sf, n) && i < n && Weight(Configured(n), sf.weight, n) < 0x80_0000
    ensures SizeOf(hb, sf, n, me, i) ==
            if i in sf.sfdomain then PackedSize(PartitionOf(hb, sf, me, i), sf.weight, n) else 0
  {
    PartitionSizeExact(sf.sfdomain, hb.hbdomain, sf.weight, n);
    PartitionSizeExact(sf.raw[i].sfdomain, sf.raw[i].hbdomain, sf.weight, n);
  }

  /** Survival Rule 2 goes by heartbeats alone: what the slots say does not matter. */
  lemma Rule2IgnoresSlots(hb: HbView, sf: SfView, raw: seq<Raw>, sfdomain: HostMap, live: HostMap, n: nat, me: nat)
    requires |hb.raw| == n
    ensures Rule2(hb, sf.(raw := raw, sfdomain := sfdomain), live, n, me) == Rule2(hb, sf, live, n, me)
  {
    forall i | 0 <= i < n
      ensures HasAccess(hb, sf.(raw := raw, sfdomain := sfdomain), me, i) == HasAccess(hb, sf, me, i)
    {
    }
  }

  /**
   One host is enough to speak against Rule 2: a visible peer whose heartbeat shows itself on the state file, the local
   host with access, or an unseen host that is not excluded. If there is none, the rule holds.
   */
  lemma WhatSpeaksAgainstRule2(hb: HbView, sf: SfView, live: HostMap, n: nat, me: nat, i: nat)
    requires |hb.raw| == n && i < n && Rule2(hb, sf, live, n, me)
    ensures i in hb.hbdomain * live ==> if i == me then !sf.sfAccess else i !in hb.raw[i].sfdomain
    ensures i !in hb.hbdomain * live ==> i in sf.excluded
  {
  }

  lemma SilenceMeetsRule2(hb: HbView, sf: SfView, live: HostMap, n: nat, me: nat)
    requires |hb.raw| == n && me < n && !sf.sfAccess && Configured(n) <= hb.hbdomain * live + sf.excluded
    requires forall i :: 0 <= i < n ==> hb.raw[i].sfdomain == {}
    ensures Rule2(hb, sf, live, n, me)
  {
    forall i | 0 <= i < n
      ensures if i in hb.hbdomain * live then !HasAccess(hb, sf, me, i) else i in sf.excluded
    {
      assert i in Configured(n);
      assert hb.raw[i].sfdomain == {};
    }
  }

  /** An armed host intersects its liveset with its proposal, any other one leaves it alone. */
  lemma OnlyArmedHostsCommit(current: HostMap, proposed: HostMap, armed: bool)
    ensures Committed(current, proposed, armed) == if armed then current * proposed else current
  {
  }
}
