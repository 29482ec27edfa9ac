/** Joining a live pool (daemon/sm.c, join and process_join_request; daemon/heartbeat.c, receive_hb). */
module Join {
  import opened Hosts

  // ---------------------------------------------------------------- process_join_request

  /** Host `i` is asking to be let in, as far as its last heartbeat tells. */
  predicate Asking(raw: seq<Raw>, hbdomain: HostMap, me: nat, i: nat)
    requires i < |raw|
  {
    i != me && i in hbdomain && i !in raw[i].currentLiveset && i in raw[i].proposedLiveset
  }

  /** Host `i` already counts itself live. */
  predicate Claiming(raw: seq<Raw>, hbdomain: HostMap, me: nat, i: nat)
    requires i < |raw|
  {
    i != me && i in hbdomain && i in raw[i].currentLiveset
  }

  /** Proposals after one scan; `admit` holds the hosts the validity test lets through. */
  function NewProposed(raw: seq<Raw>, hbdomain: HostMap, admit: HostMap, n: nat, me: nat,
                       current: HostMap, proposed: HostMap): HostMap
    requires |raw| == n
  {
    proposed + set i | i in Configured(n) && ((Asking(raw, hbdomain, me, i) && i in admit) ||
                                              (Claiming(raw, hbdomain, me, i) && i !in current))
  }

  /** Every live host is known to have put `i` into its proposal. */
  predicate AckedByAll(raw: seq<Raw>, n: nat, me: nat, current: HostMap, proposed: HostMap, i: nat)
    requires |raw| == n
  {
    forall g :: 0 <= g < n && g in current ==> if g == me then i in proposed else i in raw[g].proposedLiveset
  }

  /** Hosts that the scan lets into the liveset. */
  function Joining(raw: seq<Raw>, hbdomain: HostMap, admit: HostMap, n: nat, me: nat,
                   current: HostMap, proposed: HostMap): HostMap
    requires |raw| == n
  {
    set i | i in Configured(n) && i !in current &&
            (Claiming(raw, hbdomain, me, i) ||
             (Asking(raw, hbdomain, me, i) &&
              AckedByAll(raw, n, me, current, if i in admit then proposed + {i} else proposed, i)))
  }

  /**
   Who is live after a scan, and who is proposed: a visible host that counts itself live is taken over; a visible host
   that asks is proposed if it is admitted, and is live once every live host proposes it, this one included.
   */
  lemma ScanOutcome(raw: seq<Raw>, hbdomain: HostMap, admit: HostMap, n: nat, me: nat,
                    current: HostMap, proposed: HostMap, i: nat)
    requires |raw| == n && i < n
    ensures var proposed' := NewProposed(raw, hbdomain, admit, n, me, current, proposed);
      var live' := current + Joining(raw, hbdomain, admit, n, me, current, proposed);
      && (i in proposed' <==>
            || i in proposed
            || (i != me && i in hbdomain &&
                if i in raw[i].currentLiveset then i !in current else i in raw[i].proposedLiveset && i in admit))
      && (i in live' <==>
            || i in current
            || (i != me && i in hbdomain &&
                (|| i in raw[i].currentLiveset
                 || (i in raw[i].proposedLiveset &&
                     forall g: nat :: g < n && g in current ==>
                       if g == me then i in proposed' else i in raw[g].proposedLiveset))))
  {
    assert i in Configured(n);
  }

  class JoinAgent {
    const n: nat
    const me: nat
    var currentLiveset: HostMap
    var proposedLiveset: HostMap
    var joinBlock: bool
    var sr2: bool
    var hbdomain: HostMap
    var sfdomain: HostMap
    var raw: seq<Raw>            // phb->raw

    /** The validity test: no fault handling, and the host is seen on the state file or SR2 holds. */
    function Admit(): (admit: HostMap)
      reads this
      ensures forall i: nat :: i < n ==> (i in admit <==> !joinBlock && (i in sfdomain || sr2))
    {
      if joinBlock then {} else if sr2 then Configured(n) else sfdomain
    }

    method AllAcked(current: HostMap, i: nat) returns (allowed: bool)
      requires |raw| == n
      ensures allowed == AckedByAll(raw, n, me, current, proposedLiveset, i)
    {
      allowed := true;
      var index2 := 0;
      while index2 < n && allowed
        invariant 0 <= index2 <= n
        invariant allowed ==> forall g :: 0 <= g < index2 && g in current ==>
                    if g == me then i in proposedLiveset else i in raw[g].proposedLiveset
        invariant !allowed ==> !AckedByAll(raw, n, me, current, proposedLiveset, i)
      {
        if index2 in current && (if index2 == me then i !in proposedLiveset else i !in raw[index2].proposedLiveset) {
          allowed := false;
        }
        index2 := index2 + 1;
      }
    }

    /** process_join_request: acknowledge every valid request, then admit whoever all live hosts acknowledged. */
    method ProcessJoinRequest()
      requires |raw| == n && me < n && currentLiveset <= Configured(n)
      modifies this`currentLiveset, this`proposedLiveset
      ensures old(currentLiveset) == {} ==> currentLiveset == {} && proposedLiveset == old(proposedLiveset)
      ensures old(currentLiveset) != {} ==>
                && proposedLiveset ==
                     NewProposed(raw, hbdomain, Admit(), n, me, old(currentLiveset), old(proposedLiveset))
                && currentLiveset == old(currentLiveset)
                     + Joining(raw, hbdomain, Admit(), n, me, old(currentLiveset), old(proposedLiveset))
    {
      var joining: HostMap := {};
      ghost var current, before := currentLiveset, proposedLiveset;
      ghost var proposals := NewProposed(raw, hbdomain, Admit(), n, me, current, before);
      ghost var joiners := Joining(raw, hbdomain, Admit(), n, me, current, before);
      if currentLiveset != {} {
        for index := 0 to n
          invariant currentLiveset == current
          invariant proposedLiveset == before + (set i | i in proposals && i < index)
          invariant joining == set i | i in joiners && i < index
        {
          if index != me && index in hbdomain &&
             index !in raw[index].currentLiveset && index in raw[index].proposedLiveset {
            if !joinBlock && (index in sfdomain || sr2) {
              assert index in Admit();
              if index !in proposedLiveset {
                proposedLiveset := proposedLiveset + {index};
              }
            }
            assert index in proposedLiveset <==> index in (if index in Admit() then before + {index} else before);
            if index !in currentLiveset {
              var allowed := AllAcked(currentLiveset, index);
              if allowed {
                joining := joining + {index};
              }
            }
          } else if index != me && index in hbdomain && index in raw[index].currentLiveset {
            if index !in currentLiveset {
              proposedLiveset := proposedLiveset + {index};
              joining := joining + {index};
            }
          }
        }
        assert proposedLiveset == proposals;
        assert joining == joiners;
      }
      currentLiveset := currentLiveset + joining;
    }
  }
}
