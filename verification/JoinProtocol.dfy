/**
 The join protocol of a whole pool as a state machine: a common liveset, any number of simultaneous
 joiners, heartbeats that are lost, delayed and reordered, and no fault handling.
 */
module JoinProtocol {
  import opened Hosts
  import opened Join
  import opened Runs

  /** The part of a heartbeat packet that joining reads. */
  datatype Packet = Packet(from: nat, seqno: nat, current: HostMap, proposed: HostMap)

  datatype Member = Member(
    current: HostMap, proposed: HostMap,
    started: bool,           // past test_Start_Criteria (true for the hosts of the common liveset)
    asking: bool,            // join() is waiting
    stopped: bool,           // join() failed, the daemon aborts
    sent: nat, hbSeq: seq<nat>, raw: seq<Raw>)

  /**
   `asked` records which hosts have ever called join(), `partial` which of them started from a liveset that
   lacked a host of the common one.
   */
  datatype Sys = Sys(host: seq<Member>, wire: set<Packet>, asked: HostMap, partial: HostMap)

  /** What test_Start_Criteria reads on the starting host. */
  datatype StartView = StartView(sfdomain: HostMap, starting: HostMap, hbdomain: HostMap, excluded: HostMap, sr2: bool)

  /** The liveset that a starting host adopts: whoever is on the state file and not starting. */
  function Adopted(v: StartView, n: nat): HostMap {
    (v.sfdomain - v.starting) * Configured(n)
  }

  /** There is a liveset, and everybody on the state file is seen by heartbeat. */
  predicate JoinsExisting(v: StartView, n: nat) {
    && (Adopted(v, n) != {} || (v.sr2 && Configured(n) <= v.hbdomain + v.excluded))
    && v.sfdomain * Configured(n) <= v.hbdomain * Configured(n)
  }

  datatype Action =
    | StartCriteria(h: nat, view: StartView)                // adopt the liveset found on the state file
    | Request(h: nat)                                       // join() proposes the local host
    | Finish(h: nat)                                        // join() sees everybody's acknowledgement
    | GiveUp(h: nat)                                        // join() times out
    | Process(h: nat, hbdomain: HostMap, admit: HostMap)    // process_join_request
    | Send(h: nat)                                          // send_hb
    | Receive(h: nat, p: Packet)                            // receive_hb

  ghost predicate Sized(s: Sys, n: nat) {
    |s.host| == n && forall h :: 0 <= h < n ==> |s.host[h].raw| == n && |s.host[h].hbSeq| == n
  }

  /** Hosts that have finished joining. */
  function Joined(s: Sys, n: nat): HostMap
    requires Sized(s, n)
  {
    set k | k in Configured(n) && k in s.host[k].current
  }

  /** The test that join() repeats. */
  predicate AllAcknowledge(me: Member, n: nat, h: nat)
    requires |me.raw| == n
  {
    forall g :: 0 <= g < n && g != h && g in me.current ==> h in me.raw[g].proposedLiveset
  }

  predicate Enabled(s: Sys, n: nat, common: HostMap, a: Action)
    requires Sized(s, n)
  {
    && a.h < n && !s.host[a.h].stopped
    && match a
       case StartCriteria(h, view) =>
         // A slot that is not marked as starting was written by a host that counts itself live.
         && !s.host[h].started && JoinsExisting(view, n)
         && Adopted(view, n) <= common + Joined(s, n) && h !in Adopted(view, n)
       case Request(h) => h !in common && s.host[h].started && !s.host[h].asking && h !in s.host[h].current
       case Finish(h) => s.host[h].asking && AllAcknowledge(s.host[h], n, h)
       case GiveUp(h) => s.host[h].asking && !AllAcknowledge(s.host[h], n, h)
       case Receive(h, p) => p in s.wire && p.from < n && p.from != h
       case _ => true
  }

  function Update(s: Sys, h: nat, me: Member): Sys
    requires h < |s.host|
  {
    s.(host := s.host[h := me])
  }

  /** receive_hb: the sequence filter, then packets of a restarting host are ignored while it still counts as live. */
  function Accept(me: Member, n: nat, p: Packet): Member
    requires |me.raw| == n && |me.hbSeq| == n && p.from < n
  {
    if me.hbSeq[p.from] >= p.seqno then me
    else
      var seen := me.(hbSeq := me.hbSeq[p.from := p.seqno]);
      if p.from !in p.current && p.from in me.current then seen
      else seen.(raw := me.raw[p.from := me.raw[p.from].(currentLiveset := p.current, proposedLiveset := p.proposed)])
  }

  function Next(s: Sys, n: nat, common: HostMap, a: Action): (t: Sys)
    requires Sized(s, n) && Enabled(s, n, common, a)
    ensures Sized(t, n)
  {
    var me := s.host[a.h];
    match a
    case StartCriteria(h, view) =>
      var live := Adopted(view, n);
      Update(s, h, me.(current := live, proposed := live, started := true))
        .(partial := if common <= live then s.partial else s.partial + {h})
    case Request(h) => Update(s, h, me.(proposed := me.proposed + {h}, asking := true)).(asked := s.asked + {h})
    case Finish(h) => Update(s, h, me.(current := me.current + {h}, asking := false))
    case GiveUp(h) => Update(s, h, me.(proposed := me.proposed - {h}, asking := false, stopped := true))
    case Process(h, hbdomain, admit) =>
      if me.current == {} then s
      else
        Update(s, h, me.(current := me.current + Joining(me.raw, hbdomain, admit, n, h, me.current, me.proposed),
                         proposed := NewProposed(me.raw, hbdomain, admit, n, h, me.current, me.proposed)))
    case Send(h) =>
      Update(s, h, me.(sent := me.sent + 1)).(wire := s.wire + {Packet(h, me.sent + 1, me.current, me.proposed)})
    case Receive(h, p) => Update(s, h, Accept(me, n, p))
  }

  /** The hosts of `common` are live and know it; everybody else is still down. */
  ghost predicate Init(s: Sys, n: nat, common: HostMap) {
    && Sized(s, n) && s.wire == {} && s.asked == {} && s.partial == {} && common <= Configured(n)
    && forall h :: 0 <= h < n ==>
         var me := s.host[h];
         && !me.asking && !me.stopped && (me.started <==> h in common)
         && me.current == me.proposed == (if h in common then common else {})
         && forall g :: 0 <= g < n ==>
              && me.raw[g].currentLiveset <= common && me.raw[g].proposedLiveset <= me.current
              && me.hbSeq[g] <= s.host[g].sent
  }

  ghost predicate StepsTo(p: Sys, n: nat, common: HostMap, a: Action, s: Sys) {
    Sized(p, n) && Enabled(p, n, common, a) && s == Next(p, n, common, a)
  }

  /** Some host takes a step, or some packet arrives. */
  ghost function Steps(n: nat, common: HostMap): (Sys, Sys) -> bool {
    (p, q) => exists a: Action :: StepsTo(p, n, common, a, q)
  }

  ghost predicate Reachable(s: Sys, n: nat, common: HostMap) {
    exists r :: Init(r, n, common) && LeadsTo(Steps(n, common), r, s)
  }

  /**
   A host starts only while it sees by heartbeat everybody on the state file; then either somebody there is not
   starting, or the pool survives by Survival Rule 2 and everybody is visible or excluded.
   */
  lemma StartsInSightOfAll(v: StartView, n: nat)
    ensures JoinsExisting(v, n) <==>
      && (forall i: nat :: i < n && i in v.sfdomain ==> i in v.hbdomain)
      && (|| (exists i: nat :: i < n && i in v.sfdomain && i !in v.starting)
          || (v.sr2 && forall i: nat :: i < n ==> i in v.hbdomain || i in v.excluded))
  {
    InSight(v.sfdomain, v.hbdomain, n);
    AllIn(v.hbdomain, v.excluded, n);
    if i: nat :| i < n && i in v.sfdomain && i !in v.starting {
      assert i in Adopted(v, n);
    } else if i :| i in Adopted(v, n) {
      assert i in v.sfdomain && i !in v.starting;
    }
  }

  lemma AllIn(a: HostMap, b: HostMap, n: nat)
    ensures Configured(n) <= a + b <==> forall i: nat :: i < n ==> i in a || i in b
  {
    if Configured(n) <= a + b {
      forall i: nat | i < n
        ensures i in a || i in b
      {
        assert i in Configured(n);
      }
    }
  }

  lemma InSight(a: HostMap, b: HostMap, n: nat)
    ensures a * Configured(n) <= b * Configured(n) <==> forall i: nat :: i < n && i in a ==> i in b
  {
    if a * Configured(n) <= b * Configured(n) {
      forall i: nat | i < n && i in a
        ensures i in b
      {
        assert i in a * Configured(n);
      }
    }
  }

  /**
   A packet counts once, by its sequence number. That of a host which has restarted, and no longer counts itself live,
   leaves its maps alone here for as long as this host counts it live; any other one replaces them.
   */
  lemma PacketsReplaceMaps(me: Member, n: nat, p: Packet)
    requires |me.raw| == n && |me.hbSeq| == n && p.from < n
    ensures var you := Accept(me, n, p);
      && you == me.(hbSeq := you.hbSeq, raw := you.raw) && |you.raw| == |you.hbSeq| == n
      && (forall g :: 0 <= g < n && g != p.from ==> you.raw[g] == me.raw[g] && you.hbSeq[g] == me.hbSeq[g])
      && you.hbSeq[p.from] == (if p.seqno > me.hbSeq[p.from] then p.seqno else me.hbSeq[p.from])
      && (if p.seqno > me.hbSeq[p.from] && (p.from in me.current ==> p.from in p.current) then
            you.raw[p.from].currentLiveset == p.current && you.raw[p.from].proposedLiveset == p.proposed
          else you.raw[p.from] == me.raw[p.from])
  {
  }

  /** A waiting host finishes once everybody else whom it counts live is known to propose it, and fails only before. */
  lemma WaitEnds(s: Sys, n: nat, common: HostMap, h: nat)
    requires Sized(s, n) && h < n && s.host[h].asking && !s.host[h].stopped
    ensures Enabled(s, n, common, Finish(h)) <==>
            forall g: nat :: g < n && g != h && g in s.host[h].current ==> h in s.host[h].raw[g].proposedLiveset
    ensures Enabled(s, n, common, GiveUp(h)) <==> !Enabled(s, n, common, Finish(h))
  {
  }

  // ---------------------------------------------------------------- invariant

  /** Every host of the common liveset has put `k` into its proposal. */
  ghost predicate Acked(s: Sys, n: nat, common: HostMap, k: nat)
    requires Sized(s, n)
  {
    forall g :: 0 <= g < n && g in common ==> k in s.host[g].proposed
  }

  /**
   A liveset anybody holds or has sent: its newcomers asked; and as long as every start was from a complete
   liveset, they are acknowledged by the common liveset.
   */
  ghost predicate LivesetOk(s: Sys, n: nat, common: HostMap, live: HostMap)
    requires Sized(s, n)
  {
    forall k :: k in live && k !in common ==> k in s.asked && (s.partial == {} ==> Acked(s, n, common, k))
  }

  /** A proposal that host `g` holds or has sent. */
  ghost predicate ProposalOk(s: Sys, n: nat, common: HostMap, g: nat, proposed: HostMap)
    requires Sized(s, n)
  {
    && proposed <= common + s.asked
    && (g < n && g in common ==> proposed <= s.host[g].proposed)
  }

  ghost predicate MemberOk(s: Sys, n: nat, common: HostMap, h: nat)
    requires Sized(s, n) && h < n
  {
    var me := s.host[h];
    && (h in common ==> me.started && !me.asking && common <= me.current)
    && (!me.started ==> me.current == {} && !me.asking && h !in s.asked)
    && (me.asking ==> h in s.asked && h !in me.current && h in me.proposed)
    && (me.stopped ==> h !in me.current && h !in me.proposed)
    && LivesetOk(s, n, common, me.current) && ProposalOk(s, n, common, h, me.proposed)
    && (s.partial == {} && me.started ==> common <= me.current)
  }

  ghost predicate CopyOk(s: Sys, n: nat, common: HostMap, h: nat, g: nat)
    requires Sized(s, n) && h < n && g < n
  {
    && LivesetOk(s, n, common, s.host[h].raw[g].currentLiveset)
    && ProposalOk(s, n, common, g, s.host[h].raw[g].proposedLiveset)
  }

  ghost predicate PacketOk(s: Sys, n: nat, common: HostMap, p: Packet)
    requires Sized(s, n)
  {
    LivesetOk(s, n, common, p.current) && ProposalOk(s, n, common, p.from, p.proposed)
  }

  /** Nobody has seen a sequence number that its host has not sent yet. */
  ghost predicate SequenceOk(s: Sys, n: nat)
    requires Sized(s, n)
  {
    && (forall h, g :: 0 <= h < n && 0 <= g < n ==> s.host[h].hbSeq[g] <= s.host[g].sent)
    && (forall p :: p in s.wire && p.from < n ==> p.seqno <= s.host[p.from].sent)
  }

  ghost predicate Inv(s: Sys, n: nat, common: HostMap) {
    && Sized(s, n) && common <= Configured(n)
    && (forall h :: 0 <= h < n ==> MemberOk(s, n, common, h))
    && (forall h, g :: 0 <= h < n && 0 <= g < n ==> CopyOk(s, n, common, h, g))
    && (forall p :: p in s.wire ==> PacketOk(s, n, common, p))
  }

  /** From `s` to `t` the common hosts' proposals, and the askers only grow. */
  ghost predicate Grows(s: Sys, t: Sys, n: nat, common: HostMap)
    requires Sized(s, n) && Sized(t, n)
  {
    && s.asked <= t.asked && s.partial <= t.partial
    && forall g :: 0 <= g < n && g in common ==> s.host[g].proposed <= t.host[g].proposed
  }

  lemma GrowthKeepsLiveset(s: Sys, t: Sys, n: nat, common: HostMap, live: HostMap)
    requires Sized(s, n) && Sized(t, n) && Grows(s, t, n, common) && LivesetOk(s, n, common, live)
    ensures LivesetOk(t, n, common, live)
  {
    forall k | k in live && k !in common
      ensures k in t.asked && (t.partial == {} ==> Acked(t, n, common, k))
    {
      assert s.partial == {} ==> Acked(s, n, common, k);
    }
  }

  /** Whatever is right about copies and packets stays right when proposals grow. */
  lemma GrowthKeepsCopies(s: Sys, t: Sys, n: nat, common: HostMap)
    requires Inv(s, n, common) && Sized(t, n) && Grows(s, t, n, common)
    ensures forall h :: 0 <= h < n ==>
              && LivesetOk(t, n, common, s.host[h].current)
              && (h !in common ==> ProposalOk(t, n, common, h, s.host[h].proposed))
    ensures forall h, g :: 0 <= h < n && 0 <= g < n ==>
              && LivesetOk(t, n, common, s.host[h].raw[g].currentLiveset)
              && ProposalOk(t, n, common, g, s.host[h].raw[g].proposedLiveset)
    ensures forall p :: p in s.wire ==> PacketOk(t, n, common, p)
  {
    forall h | 0 <= h < n
      ensures LivesetOk(t, n, common, s.host[h].current)
      ensures h !in common ==> ProposalOk(t, n, common, h, s.host[h].proposed)
    {
      assert MemberOk(s, n, common, h);
      GrowthKeepsLiveset(s, t, n, common, s.host[h].current);
    }
    forall h, g | 0 <= h < n && 0 <= g < n
      ensures LivesetOk(t, n, common, s.host[h].raw[g].currentLiveset)
      ensures ProposalOk(t, n, common, g, s.host[h].raw[g].proposedLiveset)
    {
      assert CopyOk(s, n, common, h, g);
      GrowthKeepsLiveset(s, t, n, common, s.host[h].raw[g].currentLiveset);
    }
    forall p | p in s.wire
      ensures PacketOk(t, n, common, p)
    {
      assert PacketOk(s, n, common, p);
      GrowthKeepsLiveset(s, t, n, common, p.current);
    }
  }

  /** Host `k` is let in by `h` only after the whole common liveset has acknowledged it. */
  lemma JoiningIsAcked(s: Sys, n: nat, common: HostMap, h: nat, hbdomain: HostMap, admit: HostMap, k: nat)
    requires Inv(s, n, common) && h < n && s.host[h].current != {} && !s.host[h].stopped
    requires k !in common
    requires k in Joining(s.host[h].raw, hbdomain, admit, n, h, s.host[h].current, s.host[h].proposed)
    ensures k in s.asked && (s.partial == {} ==> Acked(Next(s, n, common, Process(h, hbdomain, admit)), n, common, k))
  {
    var me := s.host[h];
    var t := Next(s, n, common, Process(h, hbdomain, admit));
    assert MemberOk(s, n, common, h) && CopyOk(s, n, common, h, k);
    if s.partial == {} {
      forall g | 0 <= g < n && g in common
        ensures k in t.host[g].proposed
      {
        assert g in me.current;
        assert CopyOk(s, n, common, h, g);
        assert Claiming(me.raw, hbdomain, h, k) ==> Acked(s, n, common, k);
      }
    }
  }

  /** Steps that change host `h` only, and nothing on the wire. */
  lemma LocalStep(s: Sys, t: Sys, n: nat, common: HostMap, h: nat)
    requires Inv(s, n, common) && Sized(t, n) && h < n && Grows(s, t, n, common)
    requires t.wire == s.wire && t.host == s.host[h := t.host[h]] && t.asked <= s.asked + {h}
    requires MemberOk(t, n, common, h)
    requires forall g :: 0 <= g < n ==> CopyOk(t, n, common, h, g)
    ensures Inv(t, n, common)
  {
    GrowthKeepsCopies(s, t, n, common);
    forall k | 0 <= k < n
      ensures MemberOk(t, n, common, k)
    {
      assert MemberOk(s, n, common, k);
    }
  }

  lemma CopiesUnchanged(s: Sys, t: Sys, n: nat, common: HostMap, h: nat)
    requires Inv(s, n, common) && Sized(t, n) && h < n && Grows(s, t, n, common) && t.host[h].raw == s.host[h].raw
    ensures forall g :: 0 <= g < n ==> CopyOk(t, n, common, h, g)
  {
    GrowthKeepsCopies(s, t, n, common);
  }

  lemma StartKeepsInv(s: Sys, n: nat, common: HostMap, h: nat, view: StartView)
    requires Inv(s, n, common) && Enabled(s, n, common, StartCriteria(h, view))
    ensures Inv(Next(s, n, common, StartCriteria(h, view)), n, common)
  {
    var t := Next(s, n, common, StartCriteria(h, view));
    var live := Adopted(view, n);
    assert MemberOk(s, n, common, h);
    assert Grows(s, t, n, common);
    forall k | k in live && k !in common
      ensures k in s.asked && (s.partial == {} ==> Acked(s, n, common, k))
    {
      assert MemberOk(s, n, common, k);
    }
    GrowthKeepsLiveset(s, t, n, common, live);
    CopiesUnchanged(s, t, n, common, h);
    LocalStep(s, t, n, common, h);
  }

  lemma RequestKeepsInv(s: Sys, n: nat, common: HostMap, h: nat)
    requires Inv(s, n, common) && Enabled(s, n, common, Request(h))
    ensures Inv(Next(s, n, common, Request(h)), n, common)
  {
    var t := Next(s, n, common, Request(h));
    assert MemberOk(s, n, common, h);
    assert Grows(s, t, n, common);
    GrowthKeepsLiveset(s, t, n, common, s.host[h].current);
    CopiesUnchanged(s, t, n, common, h);
    LocalStep(s, t, n, common, h);
  }

  lemma FinishKeepsInv(s: Sys, n: nat, common: HostMap, h: nat)
    requires Inv(s, n, common) && Enabled(s, n, common, Finish(h))
    ensures Inv(Next(s, n, common, Finish(h)), n, common)
  {
    var t := Next(s, n, common, Finish(h));
    assert MemberOk(s, n, common, h);
    assert Grows(s, t, n, common);
    forall g | 0 <= g < n && g in common && s.partial == {}
      ensures h in t.host[g].proposed
    {
      assert CopyOk(s, n, common, h, g);
    }
    GrowthKeepsLiveset(s, t, n, common, s.host[h].current);
    CopiesUnchanged(s, t, n, common, h);
    LocalStep(s, t, n, common, h);
  }

  lemma GiveUpKeepsInv(s: Sys, n: nat, common: HostMap, h: nat)
    requires Inv(s, n, common) && Enabled(s, n, common, GiveUp(h))
    ensures Inv(Next(s, n, common, GiveUp(h)), n, common)
  {
    var t := Next(s, n, common, GiveUp(h));
    assert MemberOk(s, n, common, h);
    assert Grows(s, t, n, common);
    GrowthKeepsLiveset(s, t, n, common, s.host[h].current);
    CopiesUnchanged(s, t, n, common, h);
    LocalStep(s, t, n, common, h);
  }

  lemma ProcessKeepsInv(s: Sys, n: nat, common: HostMap, h: nat, hbdomain: HostMap, admit: HostMap)
    requires Inv(s, n, common) && Enabled(s, n, common, Process(h, hbdomain, admit)) && s.host[h].current != {}
    ensures Inv(Next(s, n, common, Process(h, hbdomain, admit)), n, common)
  {
    var t := Next(s, n, common, Process(h, hbdomain, admit));
    var me := s.host[h];
    assert MemberOk(s, n, common, h);
    assert Grows(s, t, n, common);
    GrowthKeepsLiveset(s, t, n, common, me.current);
    forall k | k in t.host[h].current && k !in common
      ensures k in t.asked && (t.partial == {} ==> Acked(t, n, common, k))
    {
      if k in Joining(me.raw, hbdomain, admit, n, h, me.current, me.proposed) {
        JoiningIsAcked(s, n, common, h, hbdomain, admit, k);
      }
    }
    forall k | k in t.host[h].proposed
      ensures k in common + t.asked
    {
      if k !in me.proposed {
        assert CopyOk(s, n, common, h, k);
      }
    }
    CopiesUnchanged(s, t, n, common, h);
    LocalStep(s, t, n, common, h);
  }

  lemma SendKeepsInv(s: Sys, n: nat, common: HostMap, h: nat)
    requires Inv(s, n, common) && Enabled(s, n, common, Send(h))
    ensures Inv(Next(s, n, common, Send(h)), n, common)
  {
    var t := Next(s, n, common, Send(h));
    assert MemberOk(s, n, common, h);
    assert Grows(s, t, n, common);
    GrowthKeepsCopies(s, t, n, common);
    var u := t.(wire := s.wire);
    assert MemberOk(u, n, common, h);
    CopiesUnchanged(s, u, n, common, h);
    LocalStep(s, u, n, common, h);
    MoreWire(u, t, n, common, Packet(h, s.host[h].sent + 1, s.host[h].current, s.host[h].proposed));
  }

  lemma MoreWire(s: Sys, t: Sys, n: nat, common: HostMap, p: Packet)
    requires Inv(s, n, common) && t == s.(wire := s.wire + {p}) && PacketOk(s, n, common, p)
    ensures Inv(t, n, common)
  {
    assert Sized(t, n) && Grows(s, t, n, common);
    forall h | 0 <= h < n
      ensures MemberOk(t, n, common, h)
    {
      assert MemberOk(s, n, common, h);
    }
    forall h, g | 0 <= h < n && 0 <= g < n
      ensures CopyOk(t, n, common, h, g)
    {
      assert CopyOk(s, n, common, h, g);
    }
    forall q | q in t.wire
      ensures PacketOk(t, n, common, q)
    {
      assert PacketOk(s, n, common, q);
    }
  }

  lemma ReceiveKeepsInv(s: Sys, n: nat, common: HostMap, h: nat, p: Packet)
    requires Inv(s, n, common) && Enabled(s, n, common, Receive(h, p))
    ensures Inv(Next(s, n, common, Receive(h, p)), n, common)
  {
    var t := Next(s, n, common, Receive(h, p));
    assert MemberOk(s, n, common, h) && PacketOk(s, n, common, p);
    assert Grows(s, t, n, common);
    GrowthKeepsCopies(s, t, n, common);
    LocalStep(s, t, n, common, h);
  }

  lemma StepKeepsInv(s: Sys, n: nat, common: HostMap, a: Action)
    requires Inv(s, n, common) && Enabled(s, n, common, a)
    ensures Inv(Next(s, n, common, a), n, common)
  {
    match a
    case StartCriteria(h, view) => StartKeepsInv(s, n, common, h, view);
    case Request(h) => RequestKeepsInv(s, n, common, h);
    case Finish(h) => FinishKeepsInv(s, n, common, h);
    case GiveUp(h) => GiveUpKeepsInv(s, n, common, h);
    case Process(h, hbdomain, admit) =>
      if s.host[h].current != {} {
        ProcessKeepsInv(s, n, common, h, hbdomain, admit);
      }
    case Send(h) => SendKeepsInv(s, n, common, h);
    case Receive(h, p) => ReceiveKeepsInv(s, n, common, h, p);
  }

  lemma QuietKeepsSequence(s: Sys, t: Sys, n: nat)
    requires Sized(s, n) && Sized(t, n) && SequenceOk(s, n) && t.wire == s.wire
    requires forall h :: 0 <= h < n ==> t.host[h].hbSeq == s.host[h].hbSeq && t.host[h].sent == s.host[h].sent
    ensures SequenceOk(t, n)
  {
  }

  lemma QuietStep(s: Sys, n: nat, common: HostMap, a: Action)
    requires Sized(s, n) && Enabled(s, n, common, a) && !a.Send? && !a.Receive?
    ensures var t := Next(s, n, common, a);
      && t.wire == s.wire
      && forall h :: 0 <= h < n ==> t.host[h].hbSeq == s.host[h].hbSeq && t.host[h].sent == s.host[h].sent
  {
  }

  lemma SendKeepsSequence(s: Sys, n: nat, common: HostMap, h: nat)
    requires Sized(s, n) && SequenceOk(s, n) && Enabled(s, n, common, Send(h))
    ensures SequenceOk(Next(s, n, common, Send(h)), n)
  {
    var t := Next(s, n, common, Send(h));
    forall k, g | 0 <= k < n && 0 <= g < n
      ensures t.host[k].hbSeq[g] <= t.host[g].sent
    {
      assert s.host[k].hbSeq[g] <= s.host[g].sent;
    }
  }

  lemma ReceiveKeepsSequence(s: Sys, n: nat, common: HostMap, h: nat, p: Packet)
    requires Sized(s, n) && SequenceOk(s, n) && Enabled(s, n, common, Receive(h, p))
    ensures SequenceOk(Next(s, n, common, Receive(h, p)), n)
  {
    var t := Next(s, n, common, Receive(h, p));
    PacketsReplaceMaps(s.host[h], n, p);
    forall k, g | 0 <= k < n && 0 <= g < n
      ensures t.host[k].hbSeq[g] <= t.host[g].sent
    {
      assert s.host[k].hbSeq[g] <= s.host[g].sent;
    }
  }

  lemma StepKeepsSequence(s: Sys, n: nat, common: HostMap, a: Action)
    requires Sized(s, n) && SequenceOk(s, n) && Enabled(s, n, common, a)
    ensures SequenceOk(Next(s, n, common, a), n)
  {
    if a.Send? {
      SendKeepsSequence(s, n, common, a.h);
    } else if a.Receive? {
      ReceiveKeepsSequence(s, n, common, a.h, a.p);
    } else {
      QuietStep(s, n, common, a);
      QuietKeepsSequence(s, Next(s, n, common, a), n);
    }
  }

  lemma OneStep(s: Sys, t: Sys, n: nat, common: HostMap, a: Action)
    requires Inv(s, n, common) && SequenceOk(s, n) && StepsTo(s, n, common, a, t)
    ensures Inv(t, n, common) && SequenceOk(t, n)
  {
    StepKeepsInv(s, n, common, a);
    StepKeepsSequence(s, n, common, a);
  }

  lemma InitInv(s: Sys, n: nat, common: HostMap)
    requires Init(s, n, common)
    ensures Inv(s, n, common) && SequenceOk(s, n)
  {
    forall h | 0 <= h < n
      ensures MemberOk(s, n, common, h)
    {
    }
    forall h, g | 0 <= h < n && 0 <= g < n
      ensures CopyOk(s, n, common, h, g)
    {
    }
  }

  /** The invariant holds in every state of every run. */
  lemma ReachableInv(s: Sys, n: nat, common: HostMap)
    requires Reachable(s, n, common)
    ensures Inv(s, n, common) && SequenceOk(s, n)
  {
    var r :| Init(r, n, common) && LeadsTo(Steps(n, common), r, s);
    var inv := InvOf(n, common);
    InitInv(r, n, common);
    forall p, q | inv(p) && Steps(n, common)(p, q)
      ensures inv(q)
    {
      var a :| StepsTo(p, n, common, a, q);
      OneStep(p, q, n, common, a);
    }
    Keeps(Steps(n, common), inv, r, s);
  }

  ghost function InvOf(n: nat, common: HostMap): Sys -> bool {
    s => Inv(s, n, common) && SequenceOk(s, n)
  }

  // ---------------------------------------------------------------- newcomers

  /** Whoever any host counts as live beyond the common liveset is in the proposal of every host of that liveset. */
  ghost predicate Acknowledged(s: Sys, n: nat, common: HostMap) {
    Sized(s, n) && forall h, k :: 0 <= h < n && k in s.host[h].current && k !in common ==> Acked(s, n, common, k)
  }

  /** In every reachable state newcomers are acknowledged, provided no host has started from an incomplete liveset. */
  lemma NewcomersAreAcknowledged(s: Sys, n: nat, common: HostMap)
    requires Reachable(s, n, common) && s.partial == {}
    ensures Acknowledged(s, n, common)
  {
    ReachableInv(s, n, common);
    forall h, k | 0 <= h < n && k in s.host[h].current && k !in common
      ensures Acked(s, n, common, k)
    {
      assert MemberOk(s, n, common, h);
    }
  }

  lemma CommonHostsGrow(s: Sys, n: nat, common: HostMap, a: Action)
    requires Inv(s, n, common) && Enabled(s, n, common, a)
    ensures Grows(s, Next(s, n, common, a), n, common)
  {
    assert MemberOk(s, n, common, a.h);
  }

  /** Once acknowledged by the common liveset a newcomer stays acknowledged. */
  lemma AcknowledgementIsStable(s: Sys, n: nat, common: HostMap, a: Action, k: nat)
    requires Reachable(s, n, common) && Sized(s, n) && Enabled(s, n, common, a) && Acked(s, n, common, k)
    ensures Acked(Next(s, n, common, a), n, common, k)
  {
    ReachableInv(s, n, common);
    CommonHostsGrow(s, n, common, a);
  }

  /** Nobody who has not asked to join is ever proposed or counted as live. */
  lemma NoUninvitedHost(s: Sys, n: nat, common: HostMap, h: nat)
    requires Reachable(s, n, common) && h < n && Sized(s, n)
    ensures s.host[h].current <= common + s.asked && s.host[h].proposed <= common + s.asked
  {
    ReachableInv(s, n, common);
    assert MemberOk(s, n, common, h);
  }

  /** A host whose join() has failed neither counts itself live nor proposes itself any longer. */
  lemma GivenUpHostsWithdraw(s: Sys, n: nat, common: HostMap, h: nat)
    requires Reachable(s, n, common) && h < n && Sized(s, n) && s.host[h].stopped
    ensures h !in s.host[h].current && h !in s.host[h].proposed
  {
    ReachableInv(s, n, common);
    assert MemberOk(s, n, common, h);
  }

  // ---------------------------------------------------------------- admission

  /** Once every live host's copy shows the acknowledgement of a visible host that asks, the next scan admits it. */
  lemma AcknowledgedJoinerIsAdmitted(s: Sys, n: nat, common: HostMap, h: nat, hbdomain: HostMap, admit: HostMap, k: nat)
    requires Reachable(s, n, common) && Sized(s, n) && h < n && k < n && !s.host[h].stopped && s.host[h].current != {}
    requires k != h && k in hbdomain && k in s.host[h].raw[k].proposedLiveset
    requires forall g: nat :: g < n && g in s.host[h].current ==>
               if g == h then k in s.host[h].proposed + admit else k in s.host[h].raw[g].proposedLiveset
    ensures Enabled(s, n, common, Process(h, hbdomain, admit))
    ensures k in Next(s, n, common, Process(h, hbdomain, admit)).host[h].current
  {
    var me := s.host[h];
    ScanOutcome(me.raw, hbdomain, admit, n, h, me.current, me.proposed, k);
  }

  /**
   Since `s`, host `h` has heard from the hosts below `i` of its liveset that they propose `k`, and the others of them
   are as they were; `k` still waits in join().
   */
  ghost predicate Gathering(t: Sys, s: Sys, n: nat, common: HostMap, h: nat, k: nat, i: nat)
    requires Sized(s, n) && h < n && k < n
  {
    && Sized(t, n) && LeadsTo(Steps(n, common), s, t)
    && t.host[k] == s.host[k].(sent := t.host[k].sent)
    && t.host[h].stopped == s.host[h].stopped && t.host[h].current == s.host[h].current
    && (forall g :: 0 <= g < i && g < n && g != h && g in s.host[h].current ==> k in t.host[h].raw[g].proposedLiveset)
    && (forall g :: i <= g < n && g != h && g in s.host[h].current ==> t.host[g] == s.host[g])
  }

  /** Host `g` counts itself live, works, and has not let `k` in. */
  ghost predicate Able(s: Sys, n: nat, k: nat, g: nat)
    requires Sized(s, n) && k < n
  {
    g < n && g != k && !s.host[g].stopped && g in s.host[g].current && k !in s.host[g].current
  }

  ghost predicate AsksTheAble(s: Sys, n: nat, common: HostMap, h: nat, k: nat) {
    && Reachable(s, n, common) && Sized(s, n) && h < n && k < n
    && s.host[k].asking && !s.host[k].stopped && k !in s.host[k].current && k in s.host[k].proposed
    && h in s.host[h].current && forall g :: g in s.host[h].current ==> Able(s, n, k, g)
  }

  lemma GathersOne(t: Sys, s: Sys, n: nat, common: HostMap, h: nat, k: nat, i: nat) returns (u: Sys)
    requires AsksTheAble(s, n, common, h, k) && Gathering(t, s, n, common, h, k, i)
    requires i < n && i != h && i in s.host[h].current
    ensures Gathering(u, s, n, common, h, k, i + 1)
  {
    assert Able(s, n, k, i) && Able(s, n, k, h);
    ReachableOn(s, t, n, common);
    Heard(t, n, common, i, k);
    Heard(t, n, common, h, i);
    u := Tells(s, t, n, common, k, i);
    u := Acknowledges(s, u, n, common, k, i);
    u := Tells(s, u, n, common, i, h);
  }

  lemma {:induction false} GathersAll(t: Sys, s: Sys, n: nat, common: HostMap, h: nat, k: nat, i: nat) returns (u: Sys)
    requires AsksTheAble(s, n, common, h, k) && Gathering(t, s, n, common, h, k, i) && i <= n
    ensures Gathering(u, s, n, common, h, k, n)
    decreases n - i
  {
    if i == n {
      u := t;
    } else {
      u := GathersNext(t, s, n, common, h, k, i);
      u := GathersAll(u, s, n, common, h, k, i + 1);
    }
  }

  lemma GathersNext(t: Sys, s: Sys, n: nat, common: HostMap, h: nat, k: nat, i: nat) returns (u: Sys)
    requires AsksTheAble(s, n, common, h, k) && Gathering(t, s, n, common, h, k, i) && i < n
    ensures Gathering(u, s, n, common, h, k, i + 1)
  {
    if i != h && i in s.host[h].current {
      u := GathersOne(t, s, n, common, h, k, i);
    } else {
      u := t;
    }
  }

  lemma AsksHost(t: Sys, s: Sys, n: nat, common: HostMap, h: nat, k: nat) returns (u: Sys)
    requires AsksTheAble(s, n, common, h, k) && Gathering(t, s, n, common, h, k, n)
    ensures Gathering(u, s, n, common, h, k, n) && k in u.host[h].raw[k].proposedLiveset
  {
    assert Able(s, n, k, h);
    ReachableOn(s, t, n, common);
    Heard(t, n, common, h, k);
    u := Tells(s, t, n, common, k, h);
  }

  /**
   From every reachable state, a host that waits in join() can be let in by a host whose liveset works and has not let
   it in yet, on the acknowledgements alone: before it counts itself live.
   */
  lemma WaitingHostCanBeAdmitted(s: Sys, n: nat, common: HostMap, h: nat, k: nat) returns (t: Sys)
    requires Reachable(s, n, common) && Sized(s, n) && h < n && k < n && s.host[k].asking && !s.host[k].stopped
    requires h in s.host[h].current && forall g :: g in s.host[h].current ==> Able(s, n, k, g)
    ensures LeadsTo(Steps(n, common), s, t) && Sized(t, n) && k in t.host[h].current && k !in t.host[k].current
  {
    ReachableInv(s, n, common);
    assert MemberOk(s, n, common, k) && Able(s, n, k, h);
    Stay(Steps(n, common), s);
    var u := GathersAll(s, s, n, common, h, k, 0);
    u := AsksHost(u, s, n, common, h, k);
    ReachableOn(s, u, n, common);
    AcknowledgedJoinerIsAdmitted(u, n, common, h, {k}, {k}, k);
    t := LeadsOn(s, u, n, common, Process(h, {k}, {k}));
  }

  // ---------------------------------------------------------------- starting from an incomplete liveset

  lemma LeadsOn(s: Sys, t: Sys, n: nat, common: HostMap, a: Action) returns (u: Sys)
    requires LeadsTo(Steps(n, common), s, t) && Sized(t, n) && Enabled(t, n, common, a)
    ensures LeadsTo(Steps(n, common), s, u) && u == Next(t, n, common, a)
  {
    u := Next(t, n, common, a);
    assert StepsTo(t, n, common, a, u);
    OneMore(Steps(n, common), s, t, u);
  }

  lemma ReachableOn(s: Sys, t: Sys, n: nat, common: HostMap)
    requires Reachable(s, n, common) && LeadsTo(Steps(n, common), s, t)
    ensures Reachable(t, n, common)
  {
    var r :| Init(r, n, common) && LeadsTo(Steps(n, common), r, s);
    Through(Steps(n, common), r, s, t);
  }

  lemma Heard(s: Sys, n: nat, common: HostMap, h: nat, g: nat)
    requires Reachable(s, n, common) && h < n && g < n
    ensures Sized(s, n) && s.host[h].hbSeq[g] <= s.host[g].sent
  {
    ReachableInv(s, n, common);
  }

  /** Host `x` sends a heartbeat, and `y` receives it. */
  lemma Tells(r: Sys, s: Sys, n: nat, common: HostMap, x: nat, y: nat) returns (t: Sys)
    requires LeadsTo(Steps(n, common), r, s) && Sized(s, n) && x < n && y < n && x != y
    requires !s.host[x].stopped && !s.host[y].stopped && s.host[y].hbSeq[x] <= s.host[x].sent
    requires x in s.host[y].current ==> x in s.host[x].current
    ensures LeadsTo(Steps(n, common), r, t) && Sized(t, n) && t.partial == s.partial
    ensures t.host[x] == s.host[x].(sent := s.host[x].sent + 1)
    ensures t.host[y] == s.host[y].(hbSeq := t.host[y].hbSeq, raw := t.host[y].raw)
    ensures t.host[y].raw[x].currentLiveset == s.host[x].current
    ensures t.host[y].raw[x].proposedLiveset == s.host[x].proposed
    ensures forall k :: 0 <= k < n && k != x ==> t.host[y].raw[k] == s.host[y].raw[k]
    ensures forall k :: 0 <= k < n && k != x && k != y ==> t.host[k] == s.host[k]
  {
    var packet := Packet(x, s.host[x].sent + 1, s.host[x].current, s.host[x].proposed);
    t := LeadsOn(r, s, n, common, Send(x));
    t := LeadsOn(r, t, n, common, Receive(y, packet));
  }

  /** Host `i` scans its views while it sees `h`, whose request is valid. */
  lemma Acknowledges(r: Sys, s: Sys, n: nat, common: HostMap, h: nat, i: nat) returns (t: Sys)
    requires LeadsTo(Steps(n, common), r, s) && Sized(s, n) && h < n && i < n && h != i
    requires !s.host[i].stopped && i in s.host[i].current
    requires h !in s.host[i].raw[h].currentLiveset && h in s.host[i].raw[h].proposedLiveset
    ensures LeadsTo(Steps(n, common), r, t) && Sized(t, n) && t.partial == s.partial
    ensures !t.host[i].stopped && h in t.host[i].proposed && i in t.host[i].current && t.host[i].sent == s.host[i].sent
    ensures forall k :: 0 <= k < n && k != i ==> t.host[k] == s.host[k]
  {
    t := LeadsOn(r, s, n, common, Process(i, {h}, {h}));
  }

  /**
   Host `h`, which adopted `live`, waits in join(); the hosts of `live` below `i` are known to have acknowledged it, and
   the other hosts are as in `before`, when nobody had heard of its request.
   */
  ghost predicate Waiting(t: Sys, before: Sys, n: nat, h: nat, live: HostMap, i: nat)
    requires Sized(before, n) && h < n
  {
    && Sized(t, n) && t.partial == before.partial + {h}
    && t.host[h].asking && !t.host[h].stopped && t.host[h].current == live && t.host[h].proposed == live + {h}
    && (forall k :: 0 <= k < i && k < n && k in live ==> h in t.host[h].raw[k].proposedLiveset)
    && (forall k :: 0 <= k < n && k != h && (k >= i || k !in live) ==> t.host[k] == before.host[k])
  }

  /** Before `h` asked, `k` was live and had not let `h` in. */
  ghost predicate Ready(s: Sys, n: nat, h: nat, k: nat)
    requires Sized(s, n) && h < n
  {
    k < n && k != h && k in s.host[k].current && !s.host[k].stopped && h !in s.host[k].current
  }

  /** One host of the adopted liveset hears of the request, acknowledges it, and is heard. */
  lemma OneAcknowledges(r: Sys, s: Sys, before: Sys, n: nat, common: HostMap, h: nat, live: HostMap, i: nat)
    returns (t: Sys)
    requires Sized(before, n) && h < n && Reachable(r, n, common) && LeadsTo(Steps(n, common), r, s)
    requires Waiting(s, before, n, h, live, i) && i in live && Ready(before, n, h, i) && h !in live
    ensures LeadsTo(Steps(n, common), r, t) && Waiting(t, before, n, h, live, i + 1)
  {
    ReachableOn(r, s, n, common);
    Heard(s, n, common, i, h);
    Heard(s, n, common, h, i);
    t := Tells(r, s, n, common, h, i);
    t := Acknowledges(r, t, n, common, h, i);
    t := Tells(r, t, n, common, i, h);
  }

  lemma {:induction false} AllAcknowledgeOf(r: Sys, s: Sys, before: Sys, n: nat, common: HostMap, h: nat,
                                            live: HostMap, i: nat) returns (t: Sys)
    requires Sized(before, n) && h < n && Reachable(r, n, common) && LeadsTo(Steps(n, common), r, s)
    requires Waiting(s, before, n, h, live, i) && h !in live && i <= n
    requires forall k :: k in live ==> Ready(before, n, h, k)
    ensures LeadsTo(Steps(n, common), r, t) && Waiting(t, before, n, h, live, n)
    decreases n - i
  {
    if i == n {
      t := s;
    } else if i in live {
      t := OneAcknowledges(r, s, before, n, common, h, live, i);
      t := AllAcknowledgeOf(r, t, before, n, common, h, live, i + 1);
    } else {
      SkipOne(s, before, n, h, live, i);
      t := AllAcknowledgeOf(r, s, before, n, common, h, live, i + 1);
    }
  }

  lemma SkipOne(t: Sys, before: Sys, n: nat, h: nat, live: HostMap, i: nat)
    requires Sized(before, n) && h < n && Waiting(t, before, n, h, live, i) && i !in live
    ensures Waiting(t, before, n, h, live, i + 1)
  {
  }

  /** Whoever a starting host adopts is live and has not let it in. */
  lemma AdoptedAreReady(s: Sys, n: nat, common: HostMap, h: nat, view: StartView, k: nat)
    requires Reachable(s, n, common) && Sized(s, n) && Enabled(s, n, common, StartCriteria(h, view))
    requires k in Adopted(view, n)
    ensures Ready(s, n, h, k)
  {
    ReachableInv(s, n, common);
    assert MemberOk(s, n, common, k) && MemberOk(s, n, common, h);
  }

  lemma OutsidersDoNotKnow(s: Sys, n: nat, common: HostMap, h: nat, g: nat)
    requires Reachable(s, n, common) && Sized(s, n) && h < n && !s.host[h].started && g < n && g in common
    ensures h !in common && !s.host[h].asking && h !in s.host[g].proposed
  {
    ReachableInv(s, n, common);
    assert MemberOk(s, n, common, g) && MemberOk(s, n, common, h);
  }

  lemma NextReachable(s: Sys, u: Sys, n: nat, common: HostMap, a: Action)
    requires Reachable(s, n, common) && StepsTo(s, n, common, a, u)
    ensures Reachable(u, n, common)
  {
    var r :| Init(r, n, common) && LeadsTo(Steps(n, common), r, s);
    OneMore(Steps(n, common), r, s, u);
  }

  /** The host adopts its liveset and asks. */
  lemma StartsAndAsks(s: Sys, u: Sys, n: nat, common: HostMap, h: nat, view: StartView) returns (t: Sys)
    requires Sized(s, n) && StepsTo(s, n, common, StartCriteria(h, view), u)
    requires h !in common && !(common <= Adopted(view, n)) && !s.host[h].asking
    ensures LeadsTo(Steps(n, common), u, t) && u.partial == s.partial + {h}
    ensures Waiting(t, s, n, h, Adopted(view, n), 0)
  {
    Stay(Steps(n, common), u);
    t := LeadsOn(u, u, n, common, Request(h));
  }

  lemma Finishes(r: Sys, s: Sys, before: Sys, n: nat, common: HostMap, h: nat, live: HostMap) returns (t: Sys)
    requires Sized(before, n) && h < n && LeadsTo(Steps(n, common), r, s) && Waiting(s, before, n, h, live, n)
    ensures LeadsTo(Steps(n, common), r, t) && Sized(t, n) && t.partial == s.partial && h in t.host[h].current
    ensures forall k :: 0 <= k < n && k != h ==> t.host[k] == s.host[k]
  {
    t := LeadsOn(r, s, n, common, Finish(h));
  }

  /** A host that has just adopted an incomplete liveset can finish joining unheard by the hosts outside it. */
  lemma JoinsUnheard(s: Sys, u: Sys, n: nat, common: HostMap, h: nat, view: StartView) returns (t: Sys)
    requires Reachable(s, n, common) && StepsTo(s, n, common, StartCriteria(h, view), u)
    requires common <= Configured(n) && !(common <= Adopted(view, n))
    ensures LeadsTo(Steps(n, common), u, t) && t.partial == u.partial && !Acknowledged(t, n, common)
  {
    var live := Adopted(view, n);
    var g :| g in common && g !in live;
    OutsidersDoNotKnow(s, n, common, h, g);
    forall k | k in live
      ensures Ready(s, n, h, k)
    {
      AdoptedAreReady(s, n, common, h, view, k);
    }
    NextReachable(s, u, n, common, StartCriteria(h, view));
    t := StartsAndAsks(s, u, n, common, h, view);
    t := AllAcknowledgeOf(u, t, s, n, common, h, live, 0);
    assert t.host[g] == s.host[g];
    t := Finishes(u, t, s, n, common, h, live);
    assert !Acked(t, n, common, h);
  }

  /**
   Starting is safe exactly from a complete liveset: after the first start, every continuation without further
   incomplete starts keeps newcomers acknowledged if and only if the adopted liveset contains the whole common one.
   */
  lemma StartIsSafeIffComplete(s: Sys, n: nat, common: HostMap, h: nat, view: StartView)
    requires Reachable(s, n, common) && Sized(s, n) && s.partial == {} && Enabled(s, n, common, StartCriteria(h, view))
    ensures var u := Next(s, n, common, StartCriteria(h, view));
      (forall t :: LeadsTo(Steps(n, common), u, t) && t.partial == u.partial ==> Acknowledged(t, n, common))
      <==> common <= Adopted(view, n)
  {
    var u := Next(s, n, common, StartCriteria(h, view));
    assert StepsTo(s, n, common, StartCriteria(h, view), u);
    if common <= Adopted(view, n) {
      NextReachable(s, u, n, common, StartCriteria(h, view));
      assert u.partial == {};
      forall t | LeadsTo(Steps(n, common), u, t) && t.partial == u.partial
        ensures Acknowledged(t, n, common)
      {
        ReachableOn(u, t, n, common);
        NewcomersAreAcknowledged(t, n, common);
      }
    } else {
      CommonConfigured(s, n, common);
      var t := JoinsUnheard(s, u, n, common, h, view);
    }
  }

  lemma CommonConfigured(s: Sys, n: nat, common: HostMap)
    requires Reachable(s, n, common)
    ensures common <= Configured(n)
  {
    ReachableInv(s, n, common);
  }

  /**
   The case that the code foresees: the pool survives by Survival Rule 2, so no live host is on the state file, and an
   excluded host starts. It adopts the empty liveset, waits for nobody, and counts as live unacknowledged.
   */
  lemma StartUnderSR2IsUnacknowledged() returns (s: Sys, view: StartView, t: Sys)
    ensures Reachable(s, 2, {0}) && Sized(s, 2) && s.partial == {}
    ensures view.sr2 && Adopted(view, 2) == {} && Enabled(s, 2, {0}, StartCriteria(1, view))
    ensures Reachable(t, 2, {0}) && Sized(t, 2) && 1 in t.host[1].current && 1 !in t.host[0].proposed
  {
    view := StartView({1}, {1}, {0, 1}, {1}, true);
    var raw := Raw({}, {}, {}, {});
    var live := Member({0}, {0}, true, false, false, 0, [0, 0], [raw, raw]);
    var down := Member({}, {}, false, false, false, 0, [0, 0], [raw, raw]);
    s := Sys([live, down], {}, {}, {});
    assert Init(s, 2, {0});
    Stay(Steps(2, {0}), s);
    t := LeadsOn(s, s, 2, {0}, StartCriteria(1, view));
    t := LeadsOn(s, t, 2, {0}, Request(1));
    t := LeadsOn(s, t, 2, {0}, Finish(1));
  }
}
