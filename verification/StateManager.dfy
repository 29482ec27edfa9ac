/** The fault handler's working state and the loops that edit it in place (daemon/sm.c). */
module StateManager {
  import opened MachineInts
  import opened Hosts
  import opened Scores
  import opened Merge
  import opened Survival
  import opened Arbitration

  function HbRows(raw: seq<Raw>): (r: seq<HostMap>)
    ensures |r| == |raw|
  {
    seq(|raw|, i requires 0 <= i < |raw| => raw[i].hbdomain)
  }

  lemma NothingLost(raw: seq<Raw>, me: nat)
    requires me < |raw|
    ensures WithoutLost(raw, me, {}) == raw
  {
    assert raw[me].sfdomain - {} == raw[me].sfdomain;
  }

  lemma OneMoreLost(raw: seq<Raw>, me: nat, lost: HostMap, x: nat)
    requires me < |raw|
    ensures WithoutLost(WithoutLost(raw, me, lost), me, {x}) == WithoutLost(raw, me, lost + {x})
  {
    assert raw[me].sfdomain - lost - {x} == raw[me].sfdomain - (lost + {x});
  }

  /** Whether a host is lost can still be seen when others are dropped. */
  lemma LostAt(hbRaw: seq<Raw>, sfRaw: seq<Raw>, me: nat, seen: HostMap, x: nat)
    requires me < |hbRaw| == |sfRaw| && x < |hbRaw|
    ensures var n, conf := |hbRaw|, Configured(|hbRaw|);
      x in LostStateFile(hbRaw, sfRaw, n, me) <==>
      x != me && (WithoutLost(sfRaw, me, seen)[x].sfdomain * conf == {} ||
                  WithoutLost(hbRaw, me, seen)[x].sfdomain * conf == {})
  {
  }

  /** am_I_in_largest_partition: one scan keeps the first strictly greater size. */
  method AmIInLargestPartition(hb: HbView, sf: SfView, n: nat, me: nat) returns (winner: bool)
    requires WellSized(hb, sf, n) && me < n
    ensures winner == InLargest(hb, sf, n, me)
  {
    var winnerSize, winnerIndex := 0, -1;
    for index := 0 to n
      invariant winnerIndex == Leader(hb, sf, n, me, index)
      invariant winnerSize == if winnerIndex < 0 then 0 else SizeOf(hb, sf, n, me, winnerIndex)
    {
      var size := 0;
      if index !in sf.sfdomain {
        size := 0;
      } else if index == me {
        size := GetPartitionSize(sf.sfdomain, hb.hbdomain, sf.weight, n);
      } else {
        size := GetPartitionSize(sf.raw[index].sfdomain, sf.raw[index].hbdomain, sf.weight, n);
      }
      if size > winnerSize {
        winnerIndex := index;
        winnerSize := size;
      }
    }
    winner := false;
    if winnerIndex >= 0 {
      if winnerIndex == me ||
         (me in sf.raw[winnerIndex].sfdomain && me in sf.raw[winnerIndex].hbdomain &&
          winnerIndex in sf.sfdomain && winnerIndex in hb.hbdomain)
      {
        winner := true;
      }
    }
  }

  /** The descending scan of the merge loop: the last host of least score, -1 if nobody is left. */
  method SelectLeast(s: Rows, w: seq<U32>, n: nat) returns (selected: int)
    requires |s.row| == n <= |w| && n <= MAX_HOST_NUM
    ensures selected == Selected(s, w, n, 0)
  {
    selected := -1;
    var minimum: int := -1;
    var index := n;
    while index > 0
      invariant 0 <= index <= n
      invariant selected == Selected(s, w, n, index)
      invariant selected >= 0 ==> minimum == Score(s.row[selected], w, n)
    {
      index := index - 1;
      if index in s.removed {
        continue;
      }
      var score := GetPartitionScore(s.row[index], w, n);
      if selected < 0 || score < minimum {
        selected := index;
        minimum := score;
      }
    }
  }

  /** Masking the unconfigured bits changes neither Survival Rule 2 nor the hosts that a survivor drops. */
  lemma MaskingKeepsRule2(hb: HbView, sf: SfView, live: HostMap, n: nat, me: nat)
    requires |hb.raw| == n
    ensures Rule2(hb.(hbdomain := hb.hbdomain * Configured(n)),
                  sf.(sfdomain := sf.sfdomain * Configured(n)), live, n, me) == Rule2(hb, sf, live, n, me)
  {
    var hb', sf' := hb.(hbdomain := hb.hbdomain * Configured(n)), sf.(sfdomain := sf.sfdomain * Configured(n));
    forall i: nat | i < n
      ensures i in hb'.hbdomain * live <==> i in hb.hbdomain * live
      ensures HasAccess(hb', sf', me, i) == HasAccess(hb, sf, me, i)
    {
    }
  }

  /** Nor does it change what the pool shares, what the comparison and the test answer, or who is still seen. */
  lemma MaskingKeepsSharing(p: Pool, me: nat, hb: HbView, sf: SfView)
    requires Shares(p, me, hb, sf)
    ensures var conf := Configured(p.n);
      var hb', sf' := hb.(hbdomain := hb.hbdomain * conf), sf.(sfdomain := sf.sfdomain * conf);
      && Shares(p, me, hb', sf')
      && hb.hbdomain * conf * p.live == p.row[me] && sf.sfdomain * conf * p.live == p.sfdomain
      && ViewsAgree(hb', sf', p.live, p.n, me) == ViewsAgree(hb, sf, p.live, p.n, me)
      && Survives(hb', sf', p.live, p.n, me) == Survives(hb, sf, p.live, p.n, me)
      && (FaultHandler.StillSeen(p, hb', sf') <==> FaultHandler.StillSeen(p, hb, sf))
  {
    var conf := Configured(p.n);
    var hb', sf' := hb.(hbdomain := hb.hbdomain * conf), sf.(sfdomain := sf.sfdomain * conf);
    assert hb.hbdomain * conf * p.live == p.row[me] && sf.sfdomain * conf * p.live == p.sfdomain;
    MaskTwice(hb.hbdomain, p.n);
    MaskTwice(sf.sfdomain, p.n);
    MaskingKeepsRule2(hb, sf, p.live, p.n, me);
    var out := conf - Winners(p);
    assert out * (hb'.hbdomain + sf'.sfdomain) == out * (hb.hbdomain + sf.sfdomain);
  }

  lemma MaskTwice(m: HostMap, n: nat)
    ensures m * Configured(n) * Configured(n) == m * Configured(n)
  {
  }

  /** The rows that were put into a view are the rows of the view; putting in others replaces them. */
  lemma RowsOfRows(raw: seq<Raw>, row: seq<HostMap>, row': seq<HostMap>)
    requires |raw| == |row| == |row'|
    ensures HbRows(WithHbRows(raw, row)) == row
    ensures WithHbRows(WithHbRows(raw, row), row') == WithHbRows(raw, row')
  {
  }

  /** The heartbeat rows without the hosts of `removed`. */
  function Struck(raw: seq<Raw>, removed: HostMap): (r: seq<HostMap>)
    ensures |r| == |raw|
  {
    seq(|raw|, i requires 0 <= i < |raw| => if i in removed then {} else raw[i].hbdomain - removed)
  }

  lemma NothingStruck(raw: seq<Raw>)
    ensures WithHbRows(raw, Struck(raw, {})) == raw
  {
    assert forall i :: 0 <= i < |raw| ==> Struck(raw, {})[i] == raw[i].hbdomain;
  }

  lemma OneMoreStruck(raw: seq<Raw>, removed: HostMap, x: nat)
    ensures Purge(Struck(raw, removed), x) == Struck(raw, removed + {x})
  {
    forall i | 0 <= i < |raw|
      ensures Purge(Struck(raw, removed), x)[i] == Struck(raw, removed + {x})[i]
    {
      assert raw[i].hbdomain - removed - {x} == raw[i].hbdomain - (removed + {x});
    }
  }

  /** The rows after striking `x` out of a view from which `removed` is struck. */
  lemma StrikeOne(raw: seq<Raw>, removed: HostMap, x: nat)
    ensures var row := HbRows(WithHbRows(raw, Struck(raw, removed)));
            WithHbRows(WithHbRows(raw, Struck(raw, removed)), Purge(row, x)) ==
            WithHbRows(raw, Struck(raw, removed + {x}))
  {
    RowsOfRows(raw, Struck(raw, removed), Struck(raw, removed + {x}));
    OneMoreStruck(raw, removed, x);
  }

  lemma StruckIsStart(raw: seq<Raw>, mySf: HostMap, n: nat)
    requires |raw| == n
    ensures Struck(raw, Configured(n) - mySf) == StartRows(raw, mySf, n).row
  {
  }

  lemma OwnRows(raw: seq<Raw>)
    ensures WithHbRows(raw, HbRows(raw)) == raw
  {
  }

  lemma MaskingKeepsDropped(hb: HbView, sf: SfView, live: HostMap, n: nat, sr2: bool)
    ensures FaultHandler.RemovedFrom(hb.hbdomain * Configured(n) * live, sf.sfdomain * Configured(n) * live, sr2, n)
         == Dropped(hb, sf, live, n, sr2)
  {
  }

  class FaultHandler {
    const n: nat
    const me: nat
    var currentLiveset: HostMap
    var proposedLiveset: HostMap
    var armed: bool
    var survivingBySR2: bool     // smvar.SR2
    var publishedSR2: bool       // psm->SR2
    var sleepExtend: bool        // smvar.fh_sleep_extend
    var hb: HbView
    var sf: SfView
    var stableHb: HbView         // smvar.stable_hb
    var stableSf: SfView         // smvar.stable_sf

    ghost predicate Valid()
      reads this
    {
      WellSized(hb, sf, n) && WellSized(stableHb, stableSf, n) && me < n && currentLiveset <= Configured(n)
    }

    /** A live host before its first fault handling; the stable views are those that the comparison has left. */
    constructor (n: nat, me: nat, live: HostMap, armed: bool, hb: HbView, sf: SfView)
      requires WellSized(hb, sf, n) && me < n && live <= Configured(n)
      ensures Valid() && this.n == n && this.me == me && this.armed == armed
      ensures currentLiveset == proposedLiveset == live && !survivingBySR2 && !publishedSR2 && !sleepExtend
      ensures this.hb == stableHb == hb && this.sf == stableSf == sf
    {
      this.n, this.me, this.armed := n, me, armed;
      currentLiveset, proposedLiveset := live, live;
      survivingBySR2, publishedSR2, sleepExtend := false, false, false;
      this.hb, this.sf, stableHb, stableSf := hb, sf, hb, sf;
    }

    /** One pass of the comparison loop; it stops at the first host that disagrees. */
    method CompareViews() returns (consistent: bool, myHb: HostMap, mySf: HostMap)
      requires Valid()
      modifies this`hb, this`sf
      ensures Valid()
      ensures consistent == ViewsAgree(old(hb), old(sf), currentLiveset, n, me)
      ensures myHb == old(hb.hbdomain) * Configured(n) * currentLiveset
      ensures mySf == old(sf.sfdomain) * Configured(n) * currentLiveset
      ensures hb == old(hb).(hbdomain := old(hb.hbdomain) * Configured(n))
      ensures sf == old(sf).(sfdomain := old(sf.sfdomain) * Configured(n))
    {
      var conf := Configured(n);
      hb := hb.(hbdomain := hb.hbdomain * conf);
      sf := sf.(sfdomain := sf.sfdomain * conf);
      myHb := hb.hbdomain * currentLiveset;
      mySf := sf.sfdomain * currentLiveset;
      consistent := true;
      var index := 0;
      while index < n && consistent
        invariant 0 <= index <= n
        invariant consistent ==>
                    forall i :: 0 <= i < index && i != me && i in currentLiveset ==>
                      AgreesWith(old(hb), old(sf), currentLiveset, n, i)
        invariant !consistent ==> !ViewsAgree(old(hb), old(sf), currentLiveset, n, me)
      {
        if index != me && index in currentLiveset {
          var remoteHb := hb.raw[index].hbdomain * conf * currentLiveset;
          var remoteSf := sf.raw[index].sfdomain * conf * currentLiveset;
          var remoteHbOnSf := sf.raw[index].hbdomain * conf * currentLiveset;
          var remoteSfOnHb := hb.raw[index].sfdomain * conf * currentLiveset;
          if (index in myHb && myHb != remoteHb) || (index in mySf && mySf != remoteSf) ||
             (index in mySf && myHb != remoteHbOnSf) || (index in myHb && mySf != remoteSfOnHb)
          {
            assert !AgreesWith(old(hb), old(sf), currentLiveset, n, index);
            consistent := false;
          }
        }
        index := index + 1;
      }
    }

    /** Cut every raw row down to the liveset and put the local domains into the local row. */
    method CutRows(myHb: HostMap, mySf: HostMap)
      requires Valid()
      modifies this`stableHb, this`stableSf
      ensures Valid()
      ensures stableHb == old(stableHb).(raw := CutRaw(old(stableHb.raw), currentLiveset, me, myHb, mySf))
      ensures stableSf == old(stableSf).(raw := CutRaw(old(stableSf.raw), currentLiveset, me, myHb, mySf))
    {
      var hbRaw, sfRaw := stableHb.raw, stableSf.raw;
      hbRaw := hbRaw[me := hbRaw[me].(hbdomain := myHb, sfdomain := mySf)];
      sfRaw := sfRaw[me := sfRaw[me].(hbdomain := myHb, sfdomain := mySf)];
      ghost var hb1, sf1 := hbRaw, sfRaw;
      for index := 0 to n
        invariant |hbRaw| == n && |sfRaw| == n
        invariant forall i :: index <= i < n ==> hbRaw[i] == hb1[i] && sfRaw[i] == sf1[i]
        invariant forall i :: 0 <= i < index ==>
                    && hbRaw[i] == CutRaw(old(stableHb.raw), currentLiveset, me, myHb, mySf)[i]
                    && sfRaw[i] == CutRaw(old(stableSf.raw), currentLiveset, me, myHb, mySf)[i]
      {
        hbRaw := hbRaw[index := hbRaw[index].(hbdomain := hbRaw[index].hbdomain * currentLiveset,
                                              sfdomain := hbRaw[index].sfdomain * currentLiveset)];
        sfRaw := sfRaw[index := sfRaw[index].(hbdomain := sfRaw[index].hbdomain * currentLiveset,
                                              sfdomain := sfRaw[index].sfdomain * currentLiveset)];
      }
      assert hbRaw == CutRaw(old(stableHb.raw), currentLiveset, me, myHb, mySf);
      assert sfRaw == CutRaw(old(stableSf.raw), currentLiveset, me, myHb, mySf);
      stableHb := stableHb.(raw := hbRaw);
      stableSf := stableSf.(raw := sfRaw);
    }

    /** Take the bit of `x` out of the local state-file domain and of the local rows, after those of `lost`. */
    method DropLost(x: nat, ghost hb0: HbView, ghost sf0: SfView, ghost lost: HostMap)
      requires Valid() && |hb0.raw| == |sf0.raw| == n
      requires stableHb == hb0.(raw := WithoutLost(hb0.raw, me, lost))
      requires stableSf == sf0.(raw := WithoutLost(sf0.raw, me, lost), sfdomain := sf0.sfdomain - lost)
      modifies this`stableHb, this`stableSf
      ensures Valid()
      ensures stableHb == hb0.(raw := WithoutLost(hb0.raw, me, lost + {x}))
      ensures stableSf == sf0.(raw := WithoutLost(sf0.raw, me, lost + {x}), sfdomain := sf0.sfdomain - (lost + {x}))
    {
      OneMoreLost(hb0.raw, me, lost, x);
      OneMoreLost(sf0.raw, me, lost, x);
      assert sf0.sfdomain - lost - {x} == sf0.sfdomain - (lost + {x});
      stableSf := stableSf.(sfdomain := stableSf.sfdomain - {x}, raw := WithoutLost(stableSf.raw, me, {x}));
      stableHb := stableHb.(raw := WithoutLost(stableHb.raw, me, {x}));
    }

    /** Drop the hosts whose state-file domain is empty on either channel. */
    method DropLostHosts(mySf0: HostMap) returns (mySf: HostMap)
      requires Valid()
      modifies this`stableHb, this`stableSf
      ensures Valid()
      ensures var lost := LostStateFile(old(stableHb.raw), old(stableSf.raw), n, me);
              && mySf == mySf0 - lost
              && stableHb == old(stableHb).(raw := WithoutLost(old(stableHb.raw), me, lost))
              && stableSf == old(stableSf).(raw := WithoutLost(old(stableSf.raw), me, lost),
                                            sfdomain := old(stableSf.sfdomain) - lost)
    {
      mySf := mySf0;
      ghost var hb0, sf0 := stableHb, stableSf;
      ghost var lost := LostStateFile(hb0.raw, sf0.raw, n, me);
      ghost var seen: HostMap := {};
      NothingLost(hb0.raw, me);
      NothingLost(sf0.raw, me);
      assert sf0.sfdomain - seen == sf0.sfdomain;
      for index := 0 to n
        invariant Valid()
        invariant seen == lost * Configured(index)
        invariant mySf == mySf0 - seen
        invariant stableHb == hb0.(raw := WithoutLost(hb0.raw, me, seen))
        invariant stableSf == sf0.(raw := WithoutLost(sf0.raw, me, seen), sfdomain := sf0.sfdomain - seen)
      {
        LostAt(hb0.raw, sf0.raw, me, seen, index);
        if index != me && (stableSf.raw[index].sfdomain * Configured(n) == {} ||
                           stableHb.raw[index].sfdomain * Configured(n) == {}) {
          mySf := mySf - {index};
          DropLost(index, hb0, sf0, seen);
          seen := seen + {index};
        }
      }
      assert seen == lost;
    }

    /** Clear the heartbeat row of `x` and its bit in all the others. */
    method StrikeRow(x: nat)
      requires Valid() && x < n
      modifies this`stableSf
      ensures Valid()
      ensures stableSf == old(stableSf).(raw := WithHbRows(old(stableSf.raw), Purge(HbRows(old(stableSf.raw)), x)))
    {
      var raw := stableSf.raw;
      raw := raw[x := raw[x].(hbdomain := {})];
      for index := 0 to n
        invariant |raw| == n
        invariant forall i :: 0 <= i < n ==>
                    raw[i] == old(stableSf.raw[i]).(hbdomain :=
                      if i == x then {} else old(stableSf.raw[i].hbdomain) - if i < index then {x} else {})
      {
        raw := raw[index := raw[index].(hbdomain := raw[index].hbdomain - {x})];
      }
      assert raw == WithHbRows(old(stableSf.raw), Purge(HbRows(old(stableSf.raw)), x));
      stableSf := stableSf.(raw := raw);
    }

    /** Strike `x` out of the view, after the hosts of `struck`. */
    method StrikeAlso(x: nat, ghost sf0: SfView, ghost struck: HostMap)
      requires Valid() && x < n && |sf0.raw| == n
      requires stableSf == sf0.(raw := WithHbRows(sf0.raw, Struck(sf0.raw, struck)))
      modifies this`stableSf
      ensures Valid()
      ensures stableSf == sf0.(raw := WithHbRows(sf0.raw, Struck(sf0.raw, struck + {x})))
    {
      StrikeOne(sf0.raw, struck, x);
      StrikeRow(x);
    }

    /** Take out all hosts without state-file access. */
    method StrikeInaccessible(mySf: HostMap) returns (removed: HostMap)
      requires Valid()
      modifies this`stableSf
      ensures Valid()
      ensures var s := StartRows(old(stableSf.raw), mySf, n);
              removed == s.removed && stableSf == old(stableSf).(raw := WithHbRows(old(stableSf.raw), s.row))
    {
      removed := {};
      ghost var base := stableSf;
      NothingStruck(base.raw);
      for index := 0 to n
        invariant Valid()
        invariant removed == Configured(index) - mySf
        invariant stableSf == base.(raw := WithHbRows(base.raw, Struck(base.raw, removed)))
      {
        if index !in mySf {
          StrikeAlso(index, base, removed);
          removed := removed + {index};
        }
      }
      StruckIsStart(base.raw, mySf, n);
    }

    /** The greedy loop: strike the least host until the least one sees everybody who is left. */
    method ReduceRows(removed0: HostMap)
      requires Valid()
      modifies this`stableSf
      ensures Valid()
      ensures stableSf == old(stableSf).(raw :=
                WithHbRows(old(stableSf.raw),
                           Reduce(Rows(HbRows(old(stableSf.raw)), removed0), stableSf.weight, n).row))
    {
      var removed: HostMap := removed0;
      ghost var base, row := stableSf.raw, HbRows(stableSf.raw);
      ghost var target := Reduce(Rows(row, removed), stableSf.weight, n);
      OwnRows(base);
      while true
        invariant Valid() && |row| == n
        invariant stableSf == old(stableSf).(raw := WithHbRows(base, row))
        invariant target == Reduce(Rows(row, removed), stableSf.weight, n)
        decreases Configured(n) - removed
      {
        RowsOfRows(base, row, row);
        var selected := SelectLeast(Rows(HbRows(stableSf.raw), removed), stableSf.weight, n);
        var reach := removed;
        if selected >= 0 {
          reach := stableSf.raw[selected].hbdomain + removed;
        }
        if Configured(n) <= reach {
          assert Stable(Rows(row, removed), stableSf.weight, n);
          break;
        }
        assert selected in Configured(n) - removed;
        StrikeRow(selected);
        RowsOfRows(base, row, Purge(row, selected));
        row := Purge(row, selected);
        removed := removed + {selected};
      }
      assert target.row == row;
    }

    /** The stable views after the consistency wait timed out. */
    method MergeViews(myHb: HostMap, mySf0: HostMap)
      requires Valid()
      modifies this`stableHb, this`stableSf
      ensures Valid()
      ensures (stableHb, stableSf) == MergedViews(old(stableHb), old(stableSf), currentLiveset, n, me, myHb, mySf0)
    {
      CutRows(myHb, mySf0);
      ghost var cut := stableSf.raw;
      var mySf := DropLostHosts(mySf0);
      ghost var dropped := stableSf.raw;
      var removed := StrikeInaccessible(mySf);
      ghost var start := StartRows(cut, mySf, n);
      assert StartRows(dropped, mySf, n).row == start.row;
      assert HbRows(stableSf.raw) == start.row;
      ReduceRows(removed);
      stableHb := stableHb.(hbdomain := stableSf.raw[me].hbdomain);
      stableSf := stableSf.(sfdomain := mySf);
      assert stableSf.raw == WithHbRows(dropped, Reduce(start, stableSf.weight, n).row);
    }

    /** test_Survival_Rule: Rule 1, else Rule 2, then the proposal and the live domains shrink. */
    method TestSurvivalRule() returns (winner: bool)
      requires Valid()
      modifies this
      ensures Valid() && currentLiveset == old(currentLiveset) && armed == old(armed)
      ensures winner == Survives(old(stableHb), old(stableSf), currentLiveset, n, me)
      ensures survivingBySR2 == NewSR2(old(stableHb), old(stableSf), currentLiveset, n, me, old(survivingBySR2))
      ensures publishedSR2 == (|| old(publishedSR2)
                               || (winner && !Rule1(old(stableHb), old(stableSf), currentLiveset, n, me)))
      ensures var dropped := if !(winner && armed) then {} else
                Dropped(old(stableHb), old(stableSf), currentLiveset, n, survivingBySR2);
              && proposedLiveset == old(proposedLiveset) - dropped
              && hb == old(hb).(hbdomain := old(hb.hbdomain) - dropped)
              && sf == old(sf).(sfdomain := old(sf.sfdomain) - dropped)
              && sleepExtend == (dropped * (old(hb.hbdomain) + old(sf.sfdomain)) != {})
    {
      stableHb := stableHb.(hbdomain := stableHb.hbdomain * Configured(n));
      stableSf := stableSf.(sfdomain := stableSf.sfdomain * Configured(n));
      var hbd, sfd := stableHb.hbdomain * currentLiveset, stableSf.sfdomain * currentLiveset;
      winner := false;
      if sfd <= hbd && sfd != {} {
        winner := true;
      } else {
        winner := AmIInLargestPartition(stableHb, stableSf, n, me);
      }
      assert winner == Rule1(old(stableHb), old(stableSf), currentLiveset, n, me);
      if !winner {
        TestRule2(hbd);
        MaskingKeepsRule2(old(stableHb), old(stableSf), currentLiveset, n, me);
        if survivingBySR2 {
          publishedSR2 := true;
          winner := true;
        }
      }
      sleepExtend := false;
      if winner && armed {
        DropFromProposal(hbd, sfd);
        MaskingKeepsDropped(old(stableHb), old(stableSf), currentLiveset, n, survivingBySR2);
      }
    }

    /** The loop of Survival Rule 2. */
    method TestRule2(hbd: HostMap)
      requires Valid() && hbd == stableHb.hbdomain * currentLiveset
      modifies this`survivingBySR2
      ensures survivingBySR2 == Rule2(stableHb, stableSf, currentLiveset, n, me)
    {
      survivingBySR2 := true;
      for index := 0 to n
        invariant survivingBySR2 <==>
          forall i :: 0 <= i < index ==>
            if i in hbd then !HasAccess(stableHb, stableSf, me, i) else i in stableSf.excluded
      {
        var sfAccess := if index == me then stableSf.sfAccess else index in stableHb.raw[index].sfdomain;
        var excluded := index in stableSf.excluded;
        var inHbd := index in hbd;
        if (inHbd && sfAccess) || (!inHbd && !excluded) {
          survivingBySR2 := false;
        }
      }
    }

    static function RemovedFrom(hbd: HostMap, sfd: HostMap, sr2: bool, n: nat): HostMap {
      set i | i in Configured(n) && (i !in hbd || !(sr2 || i in sfd))
    }

    /** Drop `x` from both live domains, after the hosts of `seen`. */
    method DropFromDomains(x: nat, ghost hb0: HbView, ghost sf0: SfView, ghost seen: HostMap)
      requires Valid() && |hb0.raw| == n && |sf0.raw| == n
      requires hb == hb0.(hbdomain := hb0.hbdomain - seen) && sf == sf0.(sfdomain := sf0.sfdomain - seen) && x !in seen
      requires sleepExtend == (seen * (hb0.hbdomain + sf0.sfdomain) != {})
      modifies this`hb, this`sf, this`sleepExtend
      ensures Valid()
      ensures hb == hb0.(hbdomain := hb0.hbdomain - (seen + {x})) && sf == sf0.(sfdomain := sf0.sfdomain - (seen + {x}))
      ensures sleepExtend == ((seen + {x}) * (hb0.hbdomain + sf0.sfdomain) != {})
    {
      ghost var both := hb0.hbdomain + sf0.sfdomain;
      assert (seen + {x}) * both == if x in both then seen * both + {x} else seen * both;
      assert hb0.hbdomain - (seen + {x}) == hb0.hbdomain - seen - {x};
      assert sf0.sfdomain - (seen + {x}) == sf0.sfdomain - seen - {x};
      if x in hb.hbdomain {
        hb := hb.(hbdomain := hb.hbdomain - {x});
        sleepExtend := true;
      } else {
        assert hb.hbdomain - {x} == hb.hbdomain;
      }
      if x in sf.sfdomain {
        sf := sf.(sfdomain := sf.sfdomain - {x});
        sleepExtend := true;
      } else {
        assert sf.sfdomain - {x} == sf.sfdomain;
      }
    }

    /** The last loop of the test: unseen hosts leave the proposal and both live domains. */
    method DropFromProposal(hbd: HostMap, sfd: HostMap)
      requires Valid() && !sleepExtend
      modifies this`proposedLiveset, this`hb, this`sf, this`sleepExtend
      ensures Valid()
      ensures var dropped := RemovedFrom(hbd, sfd, survivingBySR2, n);
              && proposedLiveset == old(proposedLiveset) - dropped
              && hb == old(hb).(hbdomain := old(hb.hbdomain) - dropped)
              && sf == old(sf).(sfdomain := old(sf.sfdomain) - dropped)
              && sleepExtend == (dropped * (old(hb.hbdomain) + old(sf.sfdomain)) != {})
    {
      ghost var dropped := RemovedFrom(hbd, sfd, survivingBySR2, n);
      ghost var seen: HostMap := {};
      for index := 0 to n
        invariant Valid()
        invariant seen == set i | i in dropped && i < index
        invariant proposedLiveset == old(proposedLiveset) - seen
        invariant hb == old(hb).(hbdomain := old(hb.hbdomain) - seen)
        invariant sf == old(sf).(sfdomain := old(sf.sfdomain) - seen)
        invariant sleepExtend == (seen * (old(hb.hbdomain) + old(sf.sfdomain)) != {})
      {
        var inHbd := index in hbd;
        var inSfd := if survivingBySR2 then true else index in sfd;
        if !inHbd || !inSfd {
          assert index in dropped;
          proposedLiveset := proposedLiveset - {index};
          DropFromDomains(index, old(hb), old(sf), seen);
          seen := seen + {index};
        } else {
          assert index !in dropped;
        }
      }
      assert seen == dropped;
    }

    /** The liveset update at the end of FH4. */
    method CommitLiveset()
      requires Valid()
      modifies this`currentLiveset
      ensures Valid()
      ensures currentLiveset == Committed(old(currentLiveset), proposedLiveset, armed)
    {
      var degrading := !(currentLiveset <= proposedLiveset);
      if degrading {
        if armed {
          currentLiveset := currentLiveset * proposedLiveset;
        }
      }
    }

    /** FH3 and FH4 on merged views: survival and the new liveset are those of the elected clique. */
    method DecideAfterMerge(ghost p: Pool, ghost hb0: HbView, ghost sf0: SfView) returns (survived: bool)
      requires Valid() && armed && !survivingBySR2 && currentLiveset <= proposedLiveset
      requires p.n == n && p.live == currentLiveset && Shares(p, me, hb0, sf0) && me !in sf0.excluded
      requires (stableHb, stableSf) == MergedViews(hb0, sf0, currentLiveset, n, me, p.row[me], p.sfdomain)
      modifies this
      ensures Valid()
      ensures survived <==> me in Winners(p) && Decisive(p)
      ensures survived ==> currentLiveset == Winners(p) && !survivingBySR2
      ensures survived ==> proposedLiveset == old(proposedLiveset) - (Configured(n) - Winners(p))
      ensures survived ==> sleepExtend == StillSeen(p, old(hb), old(sf))
    {
      MergeThenVoteElectsWinners(p, me, hb0, sf0);
      SurvivorsCommitWinners(p, me, hb0, sf0, proposedLiveset);
      survived := TestSurvivalRule();
      if survived {
        CommitLiveset();
      }
    }

    /** Some host outside the elected set is still in a live domain. */
    static ghost predicate StillSeen(p: Pool, hb: HbView, sf: SfView)
      requires p.n <= MAX_HOST_NUM && |p.row| == p.n && |p.weight| >= p.n
    {
      (Configured(p.n) - Winners(p)) * (hb.hbdomain + sf.sfdomain) != {}
    }

    /** FH3 and FH4 on views that agree. */
    method DecideOnAgreement(ghost p: Pool) returns (survived: bool)
      requires Valid() && armed && !survivingBySR2 && currentLiveset <= proposedLiveset
      requires p.n == n && p.live == currentLiveset && Shares(p, me, stableHb, stableSf)
      requires ViewsAgree(stableHb, stableSf, currentLiveset, n, me)
      modifies this
      ensures Valid()
      ensures survived <==> p.sfdomain != {} || old(Survives(stableHb, stableSf, currentLiveset, n, me))
      ensures survivingBySR2 ==> p.sfdomain == {}
      ensures survived ==> currentLiveset == if survivingBySR2 then p.row[me] else Winners(p)
      ensures survived && !survivingBySR2 ==>
                && proposedLiveset == old(proposedLiveset) - (Configured(n) - Winners(p))
                && sleepExtend == StillSeen(p, old(hb), old(sf))
    {
      if p.sfdomain != {} {
        AgreementElectsDomain(p, me, stableHb, stableSf, proposedLiveset);
      } else {
        EmptyDomainCommits(p, me, stableHb, stableSf, proposedLiveset, false);
        EmptyDomainCommits(p, me, stableHb, stableSf, proposedLiveset, true);
      }
      survived := TestSurvivalRule();
      if survived {
        CommitLiveset();
      }
    }

    /** The wait for agreement times out: the views are merged before FH3 and FH4. */
    method DecideOnDisagreement(ghost p: Pool, myHb: HostMap, mySf: HostMap) returns (survived: bool)
      requires Valid() && armed && !survivingBySR2 && currentLiveset <= proposedLiveset
      requires p.n == n && p.live == currentLiveset && Shares(p, me, stableHb, stableSf) && me !in stableSf.excluded
      requires myHb == p.row[me] && mySf == p.sfdomain
      modifies this
      ensures Valid()
      ensures survived <==> me in Winners(p) && Decisive(p)
      ensures survived ==> currentLiveset == Winners(p) && !survivingBySR2
      ensures survived ==> proposedLiveset == old(proposedLiveset) - (Configured(n) - Winners(p))
      ensures survived ==> sleepExtend == StillSeen(p, old(hb), old(sf))
    {
      ghost var hb0, sf0 := stableHb, stableSf;
      MergeViews(myHb, mySf);
      survived := DecideAfterMerge(p, hb0, sf0);
    }

    /** FH2 up to the end of its wait: the views are compared, and the stable copies taken. */
    method CompareAndCopy(ghost p: Pool) returns (consistent: bool, myHb: HostMap, mySf: HostMap)
      requires Valid() && p.n == n && p.live == currentLiveset && Shares(p, me, hb, sf)
      modifies this`hb, this`sf, this`stableHb, this`stableSf
      ensures Valid() && Shares(p, me, stableHb, stableSf) && myHb == p.row[me] && mySf == p.sfdomain
      ensures stableSf.excluded == old(sf.excluded)
      ensures consistent == old(ViewsAgree(hb, sf, currentLiveset, n, me))
      ensures consistent == ViewsAgree(stableHb, stableSf, currentLiveset, n, me)
      ensures Survives(stableHb, stableSf, currentLiveset, n, me) == old(Survives(hb, sf, currentLiveset, n, me))
      ensures StillSeen(p, hb, sf) == StillSeen(p, old(hb), old(sf))
    {
      MaskingKeepsSharing(p, me, hb, sf);
      consistent, myHb, mySf := CompareViews();
      stableHb, stableSf := hb, sf;
    }

    /**
     FH2 to FH4 on views that the whole pool shares. If the views agree and somebody is on the state file, the host
     survives. If nobody is, it takes the vote or Survival Rule 2. If they do not agree until the wait times out, it
     survives exactly if the merge kept it. In any case, the new liveset of a survivor is what the merge elects, except
     that a survivor by Rule 2 keeps the hosts it sees.
     */
    method RunRoundOnSharedViews(ghost p: Pool) returns (survived: bool)
      requires Valid() && armed && !survivingBySR2 && currentLiveset <= proposedLiveset
      requires p.n == n && p.live == currentLiveset && Shares(p, me, hb, sf) && me !in sf.excluded
      modifies this
      ensures Valid()
      ensures var agree := old(ViewsAgree(hb, sf, currentLiveset, n, me));
        survived <==>
          if agree && p.sfdomain == {} then old(Survives(hb, sf, currentLiveset, n, me))
          else agree || (me in Winners(p) && Decisive(p))
      ensures survivingBySR2 && survived ==> p.sfdomain == {} && old(ViewsAgree(hb, sf, currentLiveset, n, me))
      ensures survived ==> currentLiveset == if survivingBySR2 then p.row[me] else Winners(p)
      ensures survived && !survivingBySR2 ==>
                && proposedLiveset == old(proposedLiveset) - (Configured(n) - Winners(p))
                && sleepExtend == StillSeen(p, old(hb), old(sf))
    {
      var consistent, myHb, mySf := CompareAndCopy(p);
      if consistent {
        survived := DecideOnAgreement(p);
      } else {
        survived := DecideOnDisagreement(p, myHb, mySf);
      }
    }
  }
}
