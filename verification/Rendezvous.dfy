/**
 The fault-handler rendezvous (daemon/sm.c) as a state machine: hosts step through ten named
 phases and watch stale copies of one another's phase, by heartbeat and through the state file.

 A host's `count` is the number of phases it has entered since it became stable; only
 `Name(count)` ever travels, so every comparison below is made on names.
 */
module Rendezvous {
  import opened MachineInts
  import opened Runs

  /** SM_PHASE (include/sm.h). */
  datatype Phase = Started | FhReady | Fh1 | Fh1Done | Fh2 | Fh2Done | Fh3 | Fh3Done | Fh4 | Fh4Done

  function Name(count: nat): Phase {
    match count % 10
    case 0 => Started
    case 1 => FhReady
    case 2 => Fh1
    case 3 => Fh1Done
    case 4 => Fh2
    case 5 => Fh2Done
    case 6 => Fh3
    case 7 => Fh3Done
    case 8 => Fh4
    case _ => Fh4Done
  }

  /** Only the two waits into FH2 look at the state file as well. */
  predicate OnStatefile(count: nat) {
    Name(count) == Fh1Done || Name(count) == Fh2
  }

  datatype Packet = Packet(from: nat, seqno: nat, phase: nat)

  /** A host's state-file slot: the phase and the committed weight are written together. */
  datatype Slot = Slot(phase: nat, weight: U32)

  datatype HostState = HostState(
    count: nat,              // phases entered so far
    passed: bool,            // the wait of the current phase is over
    weight: U32,             // psm->commited_weight
    sent: nat,               // hbvar.sequence[_my_index]
    hbSeq: seq<nat>,         // hbvar.sequence of the others
    hbPhase: seq<nat>,       // phb->sm_phase
    buffer: seq<Slot>,       // StateFile.host
    sfView: seq<Slot>)       // psf->sm_phase and psf->weight

  datatype Net = Net(host: seq<HostState>, wire: set<Packet>, disk: seq<Slot>)

  /** `seen` is the phase waited for or the one after it. */
  predicate Matches(seen: nat, count: nat) {
    Name(seen) == Name(count) || Name(seen) == Name(count + 1)
  }

  ghost predicate Sized(s: Net, n: nat) {
    && |s.host| == n && |s.disk| == n
    && forall h :: 0 <= h < n ==>
         |s.host[h].hbSeq| == n && |s.host[h].hbPhase| == n && |s.host[h].buffer| == n && |s.host[h].sfView| == n
  }

  /** The test that rendezvous_wait repeats; `onDisk` are the members with state-file access. */
  predicate Rendezvoused(me: HostState, n: nat, onDisk: set<nat>)
    requires |me.hbPhase| == n && |me.sfView| == n
  {
    forall g :: 0 <= g < n ==>
      && Matches(me.hbPhase[g], me.count)
      && (OnStatefile(me.count) && g in onDisk ==> Matches(me.sfView[g].phase, me.count))
  }

  /** One pass of the loop in rendezvous_wait. */
  method CheckRendezvous(me: HostState, n: nat, onDisk: set<nat>) returns (rendezvous: bool)
    requires |me.hbPhase| == n && |me.sfView| == n
    ensures rendezvous == Rendezvoused(me, n, onDisk)
  {
    rendezvous := true;
    for index := 0 to n
      invariant rendezvous <==>
                  forall g :: 0 <= g < index ==>
                    Matches(me.hbPhase[g], me.count) &&
                    (OnStatefile(me.count) && g in onDisk ==> Matches(me.sfView[g].phase, me.count))
    {
      if !Matches(me.hbPhase[index], me.count) {
        rendezvous := false;
      }
      if OnStatefile(me.count) {
        if index in onDisk && !Matches(me.sfView[index].phase, me.count) {
          rendezvous := false;
        }
      }
    }
  }

  /** Which slots open the waits into FH2: FH1DONE and FH2 for the first one, FH2 and FH2DONE for the second one. */
  lemma SlotsThatOpen(me: HostState, n: nat, onDisk: set<nat>, g: nat)
    requires |me.hbPhase| == n && |me.sfView| == n && g < n && g in onDisk && Rendezvoused(me, n, onDisk)
    ensures Name(me.count) == Fh1Done ==> Name(me.sfView[g].phase) in {Fh1Done, Fh2}
    ensures Name(me.count) == Fh2 ==> Name(me.sfView[g].phase) in {Fh2, Fh2Done}
  {
  }

  /** In the other eight phases the state file does not matter. */
  lemma SlotsThatDoNotMatter(me: HostState, n: nat, onDisk: set<nat>, view: seq<Slot>)
    requires |me.hbPhase| == n && |me.sfView| == |view| == n && Name(me.count) !in {Fh1Done, Fh2}
    ensures Rendezvoused(me.(sfView := view), n, onDisk) == Rendezvoused(me, n, onDisk)
  {
    forall g | 0 <= g < n
      ensures Matches(me.(sfView := view).hbPhase[g], me.count) == Matches(me.hbPhase[g], me.count)
    {
    }
  }

  // ---------------------------------------------------------------- steps

  datatype Action =
    | Pass(h: nat)                 // the wait of the current phase ends
    | Advance(h: nat)              // set_sm_phase to the next phase
    | Commit(h: nat, weight: U32)  // commit_weight in the body of FH1
    | Send(h: nat)                 // send_hb
    | Receive(h: nat, p: Packet)   // receive_hb
    | Write(h: nat)                // write_hostspecific
    | ReadSlot(h: nat, g: nat)     // sf_readhostspecific into the buffer
    | Publish(h: nat)              // readsf copies the buffer into the SF object

  predicate Enabled(s: Net, n: nat, onDisk: set<nat>, a: Action)
    requires Sized(s, n)
  {
    && a.h < n
    && match a
       case Pass(h) => !s.host[h].passed && Rendezvoused(s.host[h], n, onDisk)
       case Advance(h) => s.host[h].passed
       case Commit(h, _) => s.host[h].passed && Name(s.host[h].count) == Fh1
       case Receive(h, p) => p in s.wire && p.from < n && p.from != h
       case ReadSlot(h, g) => g < n
       case _ => true
  }

  function Update(s: Net, h: nat, me: HostState): Net
    requires h < |s.host|
  {
    s.(host := s.host[h := me])
  }

  function Next(s: Net, n: nat, onDisk: set<nat>, a: Action): (t: Net)
    requires Sized(s, n) && Enabled(s, n, onDisk, a)
    ensures Sized(t, n)
  {
    var me := s.host[a.h];
    match a
    case Pass(h) => Update(s, h, me.(passed := true))
    case Advance(h) => Update(s, h, me.(count := me.count + 1, passed := false))
    case Commit(h, weight) => Update(s, h, me.(weight := weight))
    case Send(h) =>
      Update(s, h, me.(sent := me.sent + 1, hbPhase := me.hbPhase[h := me.count]))
        .(wire := s.wire + {Packet(h, me.sent + 1, me.count)})
    case Receive(h, p) =>
      if me.hbSeq[p.from] < p.seqno then
        Update(s, h, me.(hbSeq := me.hbSeq[p.from := p.seqno], hbPhase := me.hbPhase[p.from := p.phase]))
      else s
    case Write(h) =>
      var own := Slot(me.count, me.weight);
      Update(s, h, me.(sfView := me.sfView[h := own])).(disk := s.disk[h := own])
    case ReadSlot(h, g) => Update(s, h, me.(buffer := me.buffer[g := s.disk[g]]))
    case Publish(h) => Update(s, h, me.(sfView := me.buffer[h := Slot(me.count, me.weight)]))
  }

  /** All members are stable and have seen that of one another. */
  ghost predicate Init(s: Net, n: nat) {
    && Sized(s, n) && s.wire == {}
    && forall h :: 0 <= h < n ==>
         var me := s.host[h];
         && me.count == 0 && me.passed && s.disk[h] == Slot(0, me.weight)
         && forall g :: 0 <= g < n ==>
              me.hbPhase[g] == 0 && me.hbSeq[g] <= s.host[g].sent &&
              me.buffer[g] == Slot(0, s.host[g].weight) && me.sfView[g] == Slot(0, s.host[g].weight)
  }

  ghost predicate StepsTo(p: Net, n: nat, onDisk: set<nat>, a: Action, s: Net) {
    Sized(p, n) && Enabled(p, n, onDisk, a) && s == Next(p, n, onDisk, a)
  }

  /** Some host takes a step, or some packet arrives. */
  ghost function Steps(n: nat, onDisk: set<nat>): (Net, Net) -> bool {
    (p, q) => exists a: Action :: StepsTo(p, n, onDisk, a, q)
  }

  ghost predicate Reachable(s: Net, n: nat, onDisk: set<nat>) {
    exists r :: Init(r, n) && LeadsTo(Steps(n, onDisk), r, s)
  }

  /** Each step of the data path copies one stage of one host's slot; a host sees its own slot as it last wrote it. */
  lemma SlotsMoveOneStage(s: Net, n: nat, onDisk: set<nat>, a: Action, h: nat, g: nat)
    requires Sized(s, n) && Enabled(s, n, onDisk, a) && h < n && g < n
    ensures var t := Next(s, n, onDisk, a);
      var me, you := s.host[h], t.host[h];
      && t.disk[h] == (if a == Write(h) then Slot(me.count, me.weight) else s.disk[h])
      && you.buffer[g] == (if a == ReadSlot(h, g) then s.disk[g] else me.buffer[g])
      && (g != h ==> you.sfView[g] == if a == Publish(h) then me.buffer[g] else me.sfView[g])
      && you.sfView[h] == (if a == Publish(h) || a == Write(h) then Slot(me.count, me.weight) else me.sfView[h])
  {
  }

  /** A packet carries the phase of its sender; it counts once, by its sequence number. */
  lemma HeartbeatsMovePhases(s: Net, n: nat, onDisk: set<nat>, a: Action, h: nat, g: nat)
    requires Sized(s, n) && Enabled(s, n, onDisk, a) && h < n && g < n
    ensures var t := Next(s, n, onDisk, a);
      var me, you := s.host[h], t.host[h];
      && (a == Send(h) ==>
            t.wire == s.wire + {Packet(h, you.sent, me.count)} && you.sent == me.sent + 1 && you.hbPhase[h] == me.count)
      && (!a.Send? ==> t.wire == s.wire)
      && (g != h ==>
            if a.Receive? && a.h == h && a.p.from == g && a.p.seqno > me.hbSeq[g] then
              you.hbPhase[g] == a.p.phase && you.hbSeq[g] == a.p.seqno
            else you.hbPhase[g] == me.hbPhase[g] && you.hbSeq[g] == me.hbSeq[g])
  {
  }

  // ---------------------------------------------------------------- invariant

  /** The first count at or after `count` at which the weight may change. */
  function NextCommit(count: nat): (c: nat)
    ensures c >= count && Name(c) == Fh1
    ensures forall x :: count <= x < c ==> Name(x) != Fh1
  {
    if count % 10 <= 2 then count - count % 10 + 2 else count - count % 10 + 12
  }

  /** A copy of `g`'s slot is never ahead of `g`, and its weight is right until the next commit. */
  ghost predicate SlotOk(c: Slot, g: HostState) {
    c.phase <= g.count && (g.count < NextCommit(c.phase) ==> c.weight == g.weight)
  }

  /** What host `h` knows about host `g`. */
  ghost predicate ViewOk(h: HostState, g: HostState, i: nat)
    requires i < |h.hbPhase| && i < |h.hbSeq| && i < |h.buffer| && i < |h.sfView|
  {
    && h.hbPhase[i] <= g.count
    && h.hbSeq[i] <= g.sent
    && h.count <= h.hbPhase[i] + 1
    && (h.passed ==> h.count <= h.hbPhase[i])
    && SlotOk(h.buffer[i], g) && SlotOk(h.sfView[i], g)
  }

  ghost predicate PacketOk(s: Net, n: nat, p: Packet)
    requires Sized(s, n)
  {
    p.from < n ==> p.phase <= s.host[p.from].count && p.seqno <= s.host[p.from].sent
  }

  /** Packets of one sender carry phases in sequence order. */
  ghost predicate Ordered(p: Packet, q: Packet) {
    p.from == q.from && p.seqno <= q.seqno ==> p.phase <= q.phase
  }

  /** A packet that a host would still accept is not older than the host's view. */
  ghost predicate Acceptable(s: Net, n: nat, h: nat, p: Packet)
    requires Sized(s, n) && h < n
  {
    p.from < n && p.from != h && s.host[h].hbSeq[p.from] < p.seqno ==> s.host[h].hbPhase[p.from] <= p.phase
  }

  ghost predicate WireOk(s: Net, n: nat)
    requires Sized(s, n)
  {
    && (forall p :: p in s.wire ==> PacketOk(s, n, p))
    && (forall p, q :: p in s.wire && q in s.wire ==> Ordered(p, q))
    && (forall h, p :: 0 <= h < n && p in s.wire ==> Acceptable(s, n, h, p))
  }

  ghost predicate ViewsOk(s: Net, n: nat)
    requires Sized(s, n)
  {
    && (forall g :: 0 <= g < n ==> SlotOk(s.disk[g], s.host[g]))
    && (forall h, g :: 0 <= h < n && 0 <= g < n ==> ViewOk(s.host[h], s.host[g], g))
  }

  /** Slots travel in one direction: disk, buffer, view. */
  ghost predicate CopiesInOrder(s: Net, n: nat)
    requires Sized(s, n)
  {
    forall h, g :: 0 <= h < n && 0 <= g < n ==>
      && s.host[h].buffer[g].phase <= s.disk[g].phase
      && (g != h ==> s.host[h].sfView[g].phase <= s.host[h].buffer[g].phase)
  }

  ghost predicate Inv(s: Net, n: nat) {
    Sized(s, n) && WireOk(s, n) && ViewsOk(s, n) && CopiesInOrder(s, n)
  }

  /** Within a window of nine phases a name stands for one count. */
  lemma NamesInWindow(a: nat, b: nat)
    requires Name(a) == Name(b) && -10 < a - b < 10
    ensures a == b
  {
  }

  /** A wait that ends has really seen the phase it names. */
  lemma WaitIsExact(s: Net, n: nat, h: nat, g: nat)
    requires Inv(s, n) && h < n && g < n
    ensures Matches(s.host[h].hbPhase[g], s.host[h].count) <==> s.host[h].count <= s.host[h].hbPhase[g]
    ensures s.host[h].hbPhase[g] <= s.host[h].count + 1
  {
    var me := s.host[h];
    assert ViewOk(me, s.host[g], g) && ViewOk(s.host[g], me, h);
    MatchInWindow(me.hbPhase[g], me.count);
  }

  lemma MatchInWindow(seen: nat, count: nat)
    requires count <= seen + 1 && seen <= count + 1
    ensures Matches(seen, count) <==> count <= seen
  {
    if Name(seen) == Name(count) {
      NamesInWindow(seen, count);
    }
    if Name(seen) == Name(count + 1) {
      NamesInWindow(seen, count + 1);
    }
  }

  /** Steps that neither send nor receive keep the order of packets. */
  lemma WireFrame(s: Net, t: Net, n: nat)
    requires Sized(s, n) && Sized(t, n) && WireOk(s, n) && t.wire == s.wire
    requires forall h :: 0 <= h < n ==>
               && t.host[h].count >= s.host[h].count && t.host[h].sent == s.host[h].sent
               && t.host[h].hbSeq == s.host[h].hbSeq && t.host[h].hbPhase == s.host[h].hbPhase
    ensures WireOk(t, n)
  {
    forall p | p in t.wire
      ensures PacketOk(t, n, p)
    {
      assert PacketOk(s, n, p);
    }
    forall h, p | 0 <= h < n && p in t.wire
      ensures Acceptable(t, n, h, p)
    {
      assert Acceptable(s, n, h, p);
    }
  }

  /** Steps that only change what host `h` has, and leave every copy of its slot right. */
  lemma ViewsFrame(s: Net, t: Net, n: nat, h: nat)
    requires Sized(s, n) && Sized(t, n) && ViewsOk(s, n) && h < n
    requires t.disk == s.disk && t.host == s.host[h := t.host[h]]
    requires t.host[h].count >= s.host[h].count && t.host[h].sent >= s.host[h].sent
    requires forall c :: SlotOk(c, s.host[h]) ==> SlotOk(c, t.host[h])
    requires forall g :: 0 <= g < n ==> ViewOk(t.host[h], t.host[g], g)
    ensures ViewsOk(t, n)
  {
    forall k, g | 0 <= k < n && 0 <= g < n
      ensures ViewOk(t.host[k], t.host[g], g)
    {
      assert ViewOk(s.host[k], s.host[g], g);
    }
  }

  lemma PassKeepsViews(s: Net, n: nat, onDisk: set<nat>, h: nat)
    requires Inv(s, n) && Enabled(s, n, onDisk, Pass(h))
    ensures ViewsOk(Next(s, n, onDisk, Pass(h)), n)
  {
    var t := Next(s, n, onDisk, Pass(h));
    forall g | 0 <= g < n
      ensures ViewOk(t.host[h], t.host[g], g)
    {
      WaitIsExact(s, n, h, g);
      assert ViewOk(s.host[h], s.host[g], g);
    }
    ViewsFrame(s, t, n, h);
  }

  lemma AdvanceKeepsViews(s: Net, n: nat, onDisk: set<nat>, h: nat)
    requires Inv(s, n) && Enabled(s, n, onDisk, Advance(h))
    ensures ViewsOk(Next(s, n, onDisk, Advance(h)), n)
  {
    var t := Next(s, n, onDisk, Advance(h));
    forall g | 0 <= g < n
      ensures ViewOk(t.host[h], t.host[g], g)
    {
      assert ViewOk(s.host[h], s.host[g], g);
    }
    ViewsFrame(s, t, n, h);
  }

  lemma CommitKeepsViews(s: Net, n: nat, onDisk: set<nat>, h: nat, weight: U32)
    requires Inv(s, n) && Enabled(s, n, onDisk, Commit(h, weight))
    ensures ViewsOk(Next(s, n, onDisk, Commit(h, weight)), n)
  {
    var t := Next(s, n, onDisk, Commit(h, weight));
    forall c: Slot | SlotOk(c, s.host[h])
      ensures SlotOk(c, t.host[h])
    {
    }
    forall g | 0 <= g < n
      ensures ViewOk(t.host[h], t.host[g], g)
    {
      assert ViewOk(s.host[h], s.host[g], g);
    }
    ViewsFrame(s, t, n, h);
  }

  lemma SendKeepsViews(s: Net, n: nat, onDisk: set<nat>, h: nat)
    requires Inv(s, n) && Enabled(s, n, onDisk, Send(h))
    ensures ViewsOk(Next(s, n, onDisk, Send(h)), n)
  {
    var t := Next(s, n, onDisk, Send(h));
    forall g | 0 <= g < n
      ensures ViewOk(t.host[h], t.host[g], g)
    {
      assert ViewOk(s.host[h], s.host[g], g);
    }
    ViewsFrame(s, t, n, h);
  }

  lemma SendKeepsWire(s: Net, n: nat, onDisk: set<nat>, h: nat)
    requires Inv(s, n) && Enabled(s, n, onDisk, Send(h))
    ensures WireOk(Next(s, n, onDisk, Send(h)), n)
  {
    var t := Next(s, n, onDisk, Send(h));
    var newest := Packet(h, s.host[h].sent + 1, s.host[h].count);
    forall p | p in t.wire
      ensures PacketOk(t, n, p)
    {
      assert p != newest ==> PacketOk(s, n, p);
    }
    forall p, q | p in t.wire && q in t.wire
      ensures Ordered(p, q)
    {
      assert p != newest ==> PacketOk(s, n, p);
      assert q != newest ==> PacketOk(s, n, q);
      assert p != newest && q != newest ==> Ordered(p, q);
    }
    forall k, p | 0 <= k < n && p in t.wire
      ensures Acceptable(t, n, k, p)
    {
      assert ViewOk(s.host[k], s.host[h], h);
      assert p != newest ==> Acceptable(s, n, k, p);
    }
  }

  lemma ReceiveKeepsViews(s: Net, n: nat, onDisk: set<nat>, h: nat, p: Packet)
    requires Inv(s, n) && Enabled(s, n, onDisk, Receive(h, p))
    ensures ViewsOk(Next(s, n, onDisk, Receive(h, p)), n)
  {
    var t := Next(s, n, onDisk, Receive(h, p));
    assert PacketOk(s, n, p) && Acceptable(s, n, h, p);
    forall g | 0 <= g < n
      ensures ViewOk(t.host[h], t.host[g], g)
    {
      assert ViewOk(s.host[h], s.host[g], g);
    }
    ViewsFrame(s, t, n, h);
  }

  lemma ReceiveKeepsWire(s: Net, n: nat, onDisk: set<nat>, h: nat, p: Packet)
    requires Inv(s, n) && Enabled(s, n, onDisk, Receive(h, p))
    ensures WireOk(Next(s, n, onDisk, Receive(h, p)), n)
  {
    var t := Next(s, n, onDisk, Receive(h, p));
    forall q | q in t.wire
      ensures PacketOk(t, n, q)
    {
      assert PacketOk(s, n, q);
    }
    forall k, q | 0 <= k < n && q in t.wire
      ensures Acceptable(t, n, k, q)
    {
      assert Acceptable(s, n, k, q) && Ordered(p, q);
    }
  }

  lemma WriteKeepsViews(s: Net, n: nat, onDisk: set<nat>, h: nat)
    requires Inv(s, n) && Enabled(s, n, onDisk, Write(h))
    ensures ViewsOk(Next(s, n, onDisk, Write(h)), n)
  {
    var t := Next(s, n, onDisk, Write(h));
    forall k, g | 0 <= k < n && 0 <= g < n
      ensures ViewOk(t.host[k], t.host[g], g)
    {
      assert ViewOk(s.host[k], s.host[g], g);
    }
  }

  lemma ReadKeepsViews(s: Net, n: nat, onDisk: set<nat>, a: Action)
    requires Inv(s, n) && Enabled(s, n, onDisk, a) && (a.ReadSlot? || a.Publish?)
    ensures ViewsOk(Next(s, n, onDisk, a), n)
  {
    var t := Next(s, n, onDisk, a);
    forall g | 0 <= g < n
      ensures ViewOk(t.host[a.h], t.host[g], g)
    {
      assert ViewOk(s.host[a.h], s.host[g], g);
      assert SlotOk(s.disk[g], s.host[g]);
    }
    ViewsFrame(s, t, n, a.h);
  }

  lemma StepKeepsCopyOrder(s: Net, n: nat, onDisk: set<nat>, a: Action)
    requires Inv(s, n) && Enabled(s, n, onDisk, a)
    ensures CopiesInOrder(Next(s, n, onDisk, a), n)
  {
    var t := Next(s, n, onDisk, a);
    assert SlotOk(s.disk[a.h], s.host[a.h]);
    forall h, g | 0 <= h < n && 0 <= g < n
      ensures t.host[h].buffer[g].phase <= t.disk[g].phase
      ensures g != h ==> t.host[h].sfView[g].phase <= t.host[h].buffer[g].phase
    {
      StepKeepsOrderAt(s, n, onDisk, a, h, g);
    }
  }

  lemma StepKeepsOrderAt(s: Net, n: nat, onDisk: set<nat>, a: Action, h: nat, g: nat)
    requires Sized(s, n) && Enabled(s, n, onDisk, a) && h < n && g < n && s.disk[a.h].phase <= s.host[a.h].count
    requires s.host[h].buffer[g].phase <= s.disk[g].phase
    requires g != h ==> s.host[h].sfView[g].phase <= s.host[h].buffer[g].phase
    ensures var t := Next(s, n, onDisk, a);
      && t.host[h].buffer[g].phase <= t.disk[g].phase
      && (g != h ==> t.host[h].sfView[g].phase <= t.host[h].buffer[g].phase)
  {
  }

  lemma StepKeepsViews(s: Net, n: nat, onDisk: set<nat>, a: Action)
    requires Inv(s, n) && Enabled(s, n, onDisk, a)
    ensures ViewsOk(Next(s, n, onDisk, a), n)
  {
    match a
    case Pass(h) => PassKeepsViews(s, n, onDisk, h);
    case Advance(h) => AdvanceKeepsViews(s, n, onDisk, h);
    case Commit(h, weight) => CommitKeepsViews(s, n, onDisk, h, weight);
    case Send(h) => SendKeepsViews(s, n, onDisk, h);
    case Receive(h, p) => ReceiveKeepsViews(s, n, onDisk, h, p);
    case Write(h) => WriteKeepsViews(s, n, onDisk, h);
    case _ => ReadKeepsViews(s, n, onDisk, a);
  }

  lemma StepKeepsWire(s: Net, n: nat, onDisk: set<nat>, a: Action)
    requires Inv(s, n) && Enabled(s, n, onDisk, a)
    ensures WireOk(Next(s, n, onDisk, a), n)
  {
    match a
    case Send(h) => SendKeepsWire(s, n, onDisk, h);
    case Receive(h, p) => ReceiveKeepsWire(s, n, onDisk, h, p);
    case _ => WireFrame(s, Next(s, n, onDisk, a), n);
  }

  lemma StepKeepsInv(s: Net, n: nat, onDisk: set<nat>, a: Action)
    requires Inv(s, n) && Enabled(s, n, onDisk, a)
    ensures Inv(Next(s, n, onDisk, a), n)
  {
    StepKeepsCopyOrder(s, n, onDisk, a);
    StepKeepsViews(s, n, onDisk, a);
    StepKeepsWire(s, n, onDisk, a);
  }

  lemma InitInv(s: Net, n: nat)
    requires Init(s, n)
    ensures Inv(s, n)
  {
  }

  ghost function InvOf(n: nat): Net -> bool {
    s => Inv(s, n)
  }

  /** The invariant holds in every state of every run. */
  lemma ReachableInv(s: Net, n: nat, onDisk: set<nat>)
    requires Reachable(s, n, onDisk)
    ensures Inv(s, n)
  {
    var r :| Init(r, n) && LeadsTo(Steps(n, onDisk), r, s);
    InitInv(r, n);
    forall p, q | InvOf(n)(p) && Steps(n, onDisk)(p, q)
      ensures InvOf(n)(q)
    {
      var a :| StepsTo(p, n, onDisk, a, q);
      StepKeepsInv(p, n, onDisk, a);
    }
    Keeps(Steps(n, onDisk), InvOf(n), r, s);
  }

  lemma ReachableViews(s: Net, n: nat, onDisk: set<nat>, h: nat, g: nat)
    requires Reachable(s, n, onDisk) && h < n && g < n
    ensures Sized(s, n) && ViewOk(s.host[h], s.host[g], g) && ViewOk(s.host[g], s.host[h], h)
    ensures g != h ==> s.host[h].sfView[g].phase <= s.host[h].buffer[g].phase
  {
    ReachableInv(s, n, onDisk);
  }

  lemma StepReachable(s: Net, n: nat, onDisk: set<nat>, a: Action) returns (t: Net)
    requires Reachable(s, n, onDisk) && Sized(s, n) && Enabled(s, n, onDisk, a)
    ensures Reachable(t, n, onDisk) && t == Next(s, n, onDisk, a)
  {
    t := Next(s, n, onDisk, a);
    assert StepsTo(s, n, onDisk, a, t);
    var r :| Init(r, n) && LeadsTo(Steps(n, onDisk), r, s);
    OneMore(Steps(n, onDisk), r, s, t);
  }

  // ---------------------------------------------------------------- safety over all runs

  /** No two members are ever more than one phase apart. */
  lemma SkewAtMostOne(s: Net, n: nat, onDisk: set<nat>, h: nat, g: nat)
    requires Reachable(s, n, onDisk) && h < n && g < n
    ensures Sized(s, n) && -1 <= s.host[h].count - s.host[g].count <= 1
  {
    ReachableViews(s, n, onDisk, h, g);
  }

  /** On the heartbeat a matching name always is the phase of this round. */
  lemma HeartbeatNamesNeverAlias(s: Net, n: nat, onDisk: set<nat>, h: nat, g: nat)
    requires Reachable(s, n, onDisk) && h < n && g < n
    ensures Sized(s, n)
    ensures Matches(s.host[h].hbPhase[g], s.host[h].count) <==>
            s.host[h].hbPhase[g] == s.host[h].count || s.host[h].hbPhase[g] == s.host[h].count + 1
  {
    ReachableInv(s, n, onDisk);
    WaitIsExact(s, n, h, g);
  }

  ghost predicate InBody(h: HostState) {
    h.passed && (Name(h.count) == Fh1 || Name(h.count) == Fh2 || Name(h.count) == Fh3 || Name(h.count) == Fh4)
  }

  /** While a host runs a fault-handling body nobody is outside that phase and the one after it. */
  lemma BodiesNeverOverlap(s: Net, n: nat, onDisk: set<nat>, h: nat, g: nat)
    requires Reachable(s, n, onDisk) && h < n && g < n
    ensures Sized(s, n)
    ensures InBody(s.host[h]) ==> s.host[h].count <= s.host[g].count <= s.host[h].count + 1
    ensures InBody(s.host[h]) && InBody(s.host[g]) ==> s.host[h].count == s.host[g].count
  {
    ReachableViews(s, n, onDisk, h, g);
  }

  /** While any host is in FH2 or FH3 no step changes any committed weight. */
  lemma WeightsFrozen(s: Net, n: nat, onDisk: set<nat>, a: Action, h: nat, g: nat)
    requires Reachable(s, n, onDisk) && h < n && g < n && Sized(s, n) && Enabled(s, n, onDisk, a)
    requires Name(s.host[h].count) in {Fh2, Fh2Done, Fh3}
    ensures Next(s, n, onDisk, a).host[g].weight == s.host[g].weight
  {
    SkewAtMostOne(s, n, onDisk, h, a.h);
  }

  /**
   On the state file a matching name is the phase of this round if and only if the copy is less
   than nine phases old; nothing refreshes it outside the two waits into FH2.
   */
  lemma StatefileNamesExact(s: Net, n: nat, onDisk: set<nat>, h: nat, g: nat)
    requires Reachable(s, n, onDisk) && h < n && g < n
    requires Sized(s, n) && Matches(s.host[h].sfView[g].phase, s.host[h].count)
    ensures var seen, mine := s.host[h].sfView[g].phase, s.host[h].count;
            seen == mine || seen == mine + 1 <==> mine < seen + 9
  {
    ReachableViews(s, n, onDisk, h, g);
    var seen, mine := s.host[h].sfView[g].phase, s.host[h].count;
    if mine < seen + 9 {
      if Name(seen) == Name(mine) {
        NamesInWindow(seen, mine);
      } else {
        NamesInWindow(seen, mine + 1);
      }
    }
  }

  /** The count at which the present round of a host reaches FH1DONE. */
  function RoundStart(count: nat): nat {
    count - count % 10 + 3
  }

  lemma SameRound(count: nat)
    requires count % 10 >= 3 && (count + 1) % 10 >= 3
    ensures RoundStart(count + 1) == RoundStart(count)
  {
  }

  lemma NoCommitInRound(mine: nat, seen: nat, theirs: nat)
    requires mine % 10 >= 3 && RoundStart(mine) <= seen <= theirs <= mine + 1
    ensures theirs < NextCommit(seen)
  {
  }

  /** `c` was taken after its host had entered FH1DONE of `me`'s present round. */
  predicate RoundCopy(me: HostState, c: Slot) {
    c.phase >= RoundStart(me.count)
  }

  /** From FH1DONE to FH4DONE a copy of this round carries the weight its host committed. */
  lemma RoundCopiesAreCommitted(s: Net, n: nat, onDisk: set<nat>, h: nat, g: nat)
    requires Reachable(s, n, onDisk) && h < n && g < n && Sized(s, n)
    requires s.host[h].count % 10 >= 3 && RoundCopy(s.host[h], s.host[h].sfView[g])
    ensures s.host[h].sfView[g].weight == s.host[g].weight
  {
    ReachableViews(s, n, onDisk, h, g);
    NoCommitInRound(s.host[h].count, s.host[h].sfView[g].phase, s.host[g].count);
  }

  /** A wait into FH2 has fetched copies of this round exactly from the hosts whose copy is not nine phases old. */
  lemma WaitFetchesRoundCopies(s: Net, n: nat, onDisk: set<nat>, h: nat, g: nat)
    requires Reachable(s, n, onDisk) && h < n && g < n && g in onDisk
    requires Sized(s, n) && Enabled(s, n, onDisk, Pass(h)) && OnStatefile(s.host[h].count)
    ensures RoundCopy(s.host[h], s.host[h].sfView[g]) <==> s.host[h].count < s.host[h].sfView[g].phase + 9
  {
    StatefileNamesExact(s, n, onDisk, h, g);
  }

  /** Once fetched, copies of this round stay so until the host starts the next one. */
  lemma RoundCopiesStay(s: Net, n: nat, onDisk: set<nat>, a: Action, h: nat, g: nat)
    requires Reachable(s, n, onDisk) && h < n && g < n && Sized(s, n) && Enabled(s, n, onDisk, a)
    requires s.host[h].count % 10 >= 3 && RoundCopy(s.host[h], s.host[h].sfView[g])
    ensures var t := Next(s, n, onDisk, a);
            t.host[h].count % 10 >= 3 ==> RoundCopy(t.host[h], t.host[h].sfView[g])
  {
    ReachableViews(s, n, onDisk, h, g);
    var me, me' := s.host[h], Next(s, n, onDisk, a).host[h];
    assert me'.sfView[g].phase >= me.sfView[g].phase;
    if me'.count == me.count + 1 && me'.count % 10 >= 3 {
      SameRound(me.count);
    }
  }

  // ---------------------------------------------------------------- the body of FH2

  /** In `u` host `h` ended the wait of the phase in which it is now. */
  ghost predicate PassedAt(s: Net, u: Net, n: nat, onDisk: set<nat>, h: nat) {
    && Sized(s, n) && Reachable(u, n, onDisk) && Sized(u, n) && Enabled(u, n, onDisk, Pass(h))
    && u.host[h].count == s.host[h].count
    && LeadsTo(Steps(n, onDisk), Next(u, n, onDisk, Pass(h)), s)
  }

  ghost predicate HasPassed(s: Net, n: nat, onDisk: set<nat>, h: nat) {
    exists u :: PassedAt(s, u, n, onDisk, h)
  }

  ghost predicate PassedThrough(s: Net, n: nat, onDisk: set<nat>) {
    && Reachable(s, n, onDisk) && Sized(s, n)
    && forall h :: 0 <= h < n && s.host[h].passed && s.host[h].count > 0 ==> HasPassed(s, n, onDisk, h)
  }

  lemma StepKeepsPassedThrough(s: Net, n: nat, onDisk: set<nat>, a: Action)
    requires PassedThrough(s, n, onDisk) && Enabled(s, n, onDisk, a)
    ensures PassedThrough(Next(s, n, onDisk, a), n, onDisk)
  {
    var t := StepReachable(s, n, onDisk, a);
    forall h | 0 <= h < n && t.host[h].passed && t.host[h].count > 0
      ensures HasPassed(t, n, onDisk, h)
    {
      if a == Pass(h) {
        Stay(Steps(n, onDisk), t);
        assert PassedAt(t, s, n, onDisk, h);
      } else {
        assert s.host[h].passed && s.host[h].count == t.host[h].count;
        assert HasPassed(s, n, onDisk, h);
        var u :| PassedAt(s, u, n, onDisk, h);
        assert StepsTo(s, n, onDisk, a, t);
        OneMore(Steps(n, onDisk), Next(u, n, onDisk, Pass(h)), s, t);
        assert PassedAt(t, u, n, onDisk, h);
      }
    }
  }

  ghost function PassedThroughOf(n: nat, onDisk: set<nat>): Net -> bool {
    s => PassedThrough(s, n, onDisk)
  }

  lemma ReachablePassedThrough(s: Net, n: nat, onDisk: set<nat>)
    requires Reachable(s, n, onDisk)
    ensures PassedThrough(s, n, onDisk)
  {
    var r :| Init(r, n) && LeadsTo(Steps(n, onDisk), r, s);
    Stay(Steps(n, onDisk), r);
    assert PassedThrough(r, n, onDisk);
    forall p, q | PassedThroughOf(n, onDisk)(p) && Steps(n, onDisk)(p, q)
      ensures PassedThroughOf(n, onDisk)(q)
    {
      var a :| StepsTo(p, n, onDisk, a, q);
      StepKeepsPassedThrough(p, n, onDisk, a);
    }
    Keeps(Steps(n, onDisk), PassedThroughOf(n, onDisk), r, s);
  }

  /** Host `h` has a copy of `g`'s slot from phase `phase` on. */
  ghost function CopySince(n: nat, onDisk: set<nat>, h: nat, g: nat, phase: nat): Net -> bool {
    s => Reachable(s, n, onDisk) && Sized(s, n) && h < n && g < n && s.host[h].sfView[g].phase >= phase
  }

  lemma CopyGetsNewer(s: Net, n: nat, onDisk: set<nat>, a: Action, h: nat, g: nat)
    requires Reachable(s, n, onDisk) && Sized(s, n) && h < n && g < n && Enabled(s, n, onDisk, a)
    ensures Next(s, n, onDisk, a).host[h].sfView[g].phase >= s.host[h].sfView[g].phase
  {
    ReachableViews(s, n, onDisk, h, g);
  }

  lemma CopiesGetNewer(s: Net, t: Net, n: nat, onDisk: set<nat>, h: nat, g: nat)
    requires Reachable(s, n, onDisk) && Sized(s, n) && h < n && g < n && LeadsTo(Steps(n, onDisk), s, t)
    ensures Reachable(t, n, onDisk) && Sized(t, n) && t.host[h].sfView[g].phase >= s.host[h].sfView[g].phase
  {
    var since := CopySince(n, onDisk, h, g, s.host[h].sfView[g].phase);
    forall p, q | since(p) && Steps(n, onDisk)(p, q)
      ensures since(q)
    {
      var a :| StepsTo(p, n, onDisk, a, q);
      var q' := StepReachable(p, n, onDisk, a);
      CopyGetsNewer(p, n, onDisk, a, h, g);
    }
    Keeps(Steps(n, onDisk), since, s, t);
  }

  /**
   A host in the body of FH2 holds, for every member on disk, a copy that was taken at or after FH2 of this round, with
   the weight the member committed, if the copy with which it entered was less than nine phases old; otherwise it
   entered on a copy of an earlier round.
   */
  lemma Fh2BodyHoldsRoundCopies(s: Net, n: nat, onDisk: set<nat>, h: nat) returns (u: Net)
    requires Reachable(s, n, onDisk) && Sized(s, n) && h < n && InBody(s.host[h]) && Name(s.host[h].count) == Fh2
    ensures PassedAt(s, u, n, onDisk, h)
    ensures forall g :: 0 <= g < n && g in onDisk ==>
              if s.host[h].count < u.host[h].sfView[g].phase + 9 then
                s.host[h].sfView[g].phase >= s.host[h].count && s.host[h].sfView[g].weight == s.host[g].weight
              else u.host[h].sfView[g].phase < RoundStart(s.host[h].count)
  {
    ReachablePassedThrough(s, n, onDisk);
    assert HasPassed(s, n, onDisk, h);
    u :| PassedAt(s, u, n, onDisk, h);
    forall g | 0 <= g < n && g in onDisk && s.host[h].count < u.host[h].sfView[g].phase + 9
      ensures s.host[h].sfView[g].phase >= s.host[h].count && s.host[h].sfView[g].weight == s.host[g].weight
    {
      EntersOnRoundCopy(u, n, onDisk, h, g);
      var t := StepReachable(u, n, onDisk, Pass(h));
      CopiesGetNewer(t, s, n, onDisk, h, g);
      RoundCopiesAreCommitted(s, n, onDisk, h, g);
    }
  }

  /** The wait of FH2 ends on a copy of FH2 or FH2DONE of this round, unless the copy is nine phases old. */
  lemma EntersOnRoundCopy(s: Net, n: nat, onDisk: set<nat>, h: nat, g: nat)
    requires Reachable(s, n, onDisk) && Sized(s, n) && h < n && g < n && g in onDisk
    requires Enabled(s, n, onDisk, Pass(h)) && Name(s.host[h].count) == Fh2
    ensures s.host[h].sfView[g].phase >= s.host[h].count <==> s.host[h].count < s.host[h].sfView[g].phase + 9
  {
    SlotsThatOpen(s.host[h], n, onDisk, g);
    StatefileNamesExact(s, n, onDisk, h, g);
  }

  // ---------------------------------------------------------------- progress

  /** No host is behind `h`. */
  predicate Last(s: Net, n: nat, h: nat)
    requires |s.host| == n
  {
    h < n && forall g :: 0 <= g < n ==> s.host[h].count <= s.host[g].count
  }

  /** When every view is up to date, no host that is not ahead of another one waits. */
  lemma UpToDateViewsLetTheLastPass(s: Net, n: nat, onDisk: set<nat>, h: nat)
    requires Reachable(s, n, onDisk) && Sized(s, n) && Last(s, n, h)
    requires forall g :: 0 <= g < n ==>
               && s.host[h].hbPhase[g] == s.host[g].count
               && (g in onDisk ==> s.host[h].sfView[g].phase == s.host[g].count)
    ensures Rendezvoused(s.host[h], n, onDisk)
  {
    forall g | 0 <= g < n
      ensures Matches(s.host[g].count, s.host[h].count)
    {
      SkewAtMostOne(s, n, onDisk, h, g);
      assert s.host[g].count == s.host[h].count || s.host[g].count == s.host[h].count + 1;
    }
  }

  /** Steps that only carry news: nobody enters a phase, ends a wait or commits a weight. */
  predicate Talk(a: Action) {
    a.Send? || a.Receive? || a.Write? || a.ReadSlot? || a.Publish?
  }

  ghost function Talks(n: nat, onDisk: set<nat>): (Net, Net) -> bool {
    (p, q) => exists a: Action :: Talk(a) && StepsTo(p, n, onDisk, a, q)
  }

  lemma TalksOn(s: Net, t: Net, n: nat, onDisk: set<nat>, a: Action) returns (u: Net)
    requires LeadsTo(Talks(n, onDisk), s, t) && Sized(t, n) && Enabled(t, n, onDisk, a) && Talk(a)
    ensures LeadsTo(Talks(n, onDisk), s, u) && u == Next(t, n, onDisk, a)
  {
    u := Next(t, n, onDisk, a);
    assert StepsTo(t, n, onDisk, a, u);
    OneMore(Talks(n, onDisk), s, t, u);
  }

  ghost function ReachableOf(n: nat, onDisk: set<nat>): Net -> bool {
    s => Reachable(s, n, onDisk)
  }

  lemma TalkReachable(s: Net, t: Net, n: nat, onDisk: set<nat>)
    requires Reachable(s, n, onDisk) && LeadsTo(Talks(n, onDisk), s, t)
    ensures Reachable(t, n, onDisk)
  {
    forall p, q | ReachableOf(n, onDisk)(p) && Talks(n, onDisk)(p, q)
      ensures ReachableOf(n, onDisk)(q)
    {
      var a :| Talk(a) && StepsTo(p, n, onDisk, a, q);
      var q' := StepReachable(p, n, onDisk, a);
    }
    Keeps(Talks(n, onDisk), ReachableOf(n, onDisk), s, t);
  }

  /** Since `s` there was only talk, and `h` has up-to-date copies from the hosts below `i`. */
  ghost predicate CaughtUp(t: Net, s: Net, n: nat, onDisk: set<nat>, h: nat, i: nat)
    requires Sized(s, n) && h < n
  {
    && LeadsTo(Talks(n, onDisk), s, t) && Sized(t, n)
    && (forall g :: 0 <= g < n ==> t.host[g].count == s.host[g].count && t.host[g].passed == s.host[g].passed)
    && forall g :: 0 <= g < i && g < n ==>
         && t.host[h].hbPhase[g] == s.host[g].count
         && (g in onDisk && g != h ==> t.host[h].buffer[g].phase == s.host[g].count)
  }

  lemma SendsOne(t: Net, s: Net, n: nat, onDisk: set<nat>, h: nat, i: nat) returns (u: Net)
    requires Sized(s, n) && h < n && i < n && CaughtUp(t, s, n, onDisk, h, i)
    ensures CaughtUp(u, s, n, onDisk, h, i) && Packet(i, t.host[i].sent + 1, s.host[i].count) in u.wire
    ensures i == h ==> u.host[h].hbPhase[i] == s.host[i].count
    ensures i != h ==> u.host[h] == t.host[h]
  {
    u := TalksOn(s, t, n, onDisk, Send(i));
  }

  lemma ReceivesOne(t: Net, s: Net, n: nat, onDisk: set<nat>, h: nat, i: nat, p: Packet) returns (u: Net)
    requires Sized(s, n) && h < n && i < n && i != h && CaughtUp(t, s, n, onDisk, h, i)
    requires p in t.wire && p.from == i && p.phase == s.host[i].count && t.host[h].hbSeq[i] < p.seqno
    ensures CaughtUp(u, s, n, onDisk, h, i) && u.host[h].hbPhase[i] == s.host[i].count
  {
    u := TalksOn(s, t, n, onDisk, Receive(h, p));
  }

  /** A fresh heartbeat is never ignored. */
  lemma HearsOne(t: Net, s: Net, n: nat, onDisk: set<nat>, h: nat, i: nat) returns (u: Net)
    requires Reachable(s, n, onDisk) && Sized(s, n) && h < n && i < n && CaughtUp(t, s, n, onDisk, h, i)
    ensures CaughtUp(u, s, n, onDisk, h, i) && u.host[h].hbPhase[i] == s.host[i].count
  {
    u := SendsOne(t, s, n, onDisk, h, i);
    if i != h {
      TalkReachable(s, t, n, onDisk);
      ReachableViews(t, n, onDisk, h, i);
      u := ReceivesOne(u, s, n, onDisk, h, i, Packet(i, t.host[i].sent + 1, s.host[i].count));
    }
  }

  lemma ReadsOne(t: Net, s: Net, n: nat, onDisk: set<nat>, h: nat, i: nat) returns (u: Net)
    requires Sized(s, n) && h < n && i < n && CaughtUp(t, s, n, onDisk, h, i) && t.host[h].hbPhase[i] == s.host[i].count
    ensures CaughtUp(u, s, n, onDisk, h, i + 1)
  {
    u := t;
    if i in onDisk && i != h {
      u := TalksOn(s, t, n, onDisk, Write(i));
      u := TalksOn(s, u, n, onDisk, ReadSlot(h, i));
    }
  }

  lemma {:induction false} CatchesUp(t: Net, s: Net, n: nat, onDisk: set<nat>, h: nat, i: nat) returns (u: Net)
    requires Reachable(s, n, onDisk) && Sized(s, n) && h < n && i <= n && CaughtUp(t, s, n, onDisk, h, i)
    ensures CaughtUp(u, s, n, onDisk, h, n)
    decreases n - i
  {
    u := t;
    if i < n {
      u := HearsOne(u, s, n, onDisk, h, i);
      u := ReadsOne(u, s, n, onDisk, h, i);
      u := CatchesUp(u, s, n, onDisk, h, i + 1);
    }
  }

  lemma PublishesAll(t: Net, s: Net, n: nat, onDisk: set<nat>, h: nat) returns (u: Net)
    requires Sized(s, n) && h < n && CaughtUp(t, s, n, onDisk, h, n)
    ensures CaughtUp(u, s, n, onDisk, h, n)
    ensures forall g :: 0 <= g < n && g in onDisk ==> u.host[h].sfView[g].phase == s.host[g].count
  {
    u := TalksOn(s, t, n, onDisk, Publish(h));
  }

  /**
   From every reachable state, a waiting host that is not ahead of another one can be let pass by talk alone: no copy is
   so stale, and no view so far behind, that the barrier stays closed.
   */
  lemma LastCanPass(s: Net, n: nat, onDisk: set<nat>, h: nat) returns (t: Net)
    requires Reachable(s, n, onDisk) && Sized(s, n) && Last(s, n, h) && !s.host[h].passed
    ensures LeadsTo(Talks(n, onDisk), s, t) && Sized(t, n) && t.host[h].count == s.host[h].count
    ensures Enabled(t, n, onDisk, Pass(h))
  {
    Stay(Talks(n, onDisk), s);
    t := CatchesUp(s, s, n, onDisk, h, 0);
    t := PublishesAll(t, s, n, onDisk, h);
    TalkReachable(s, t, n, onDisk);
    UpToDateViewsLetTheLastPass(t, n, onDisk, h);
  }

  lemma {:induction false} SomebodyIsLast(s: Net, n: nat, k: nat) returns (h: nat)
    requires |s.host| == n && 0 < k <= n
    ensures h < k && forall g :: 0 <= g < k ==> s.host[h].count <= s.host[g].count
    decreases k
  {
    h := k - 1;
    if k > 1 {
      var l := SomebodyIsLast(s, n, k - 1);
      if s.host[l].count < s.host[h].count {
        h := l;
      }
    }
  }

  /** The barrier never deadlocks: in every reachable state some host can, after talk alone, end its wait or go on. */
  lemma NoDeadlock(s: Net, n: nat, onDisk: set<nat>) returns (h: nat, t: Net)
    requires Reachable(s, n, onDisk) && Sized(s, n) && n > 0
    ensures LeadsTo(Talks(n, onDisk), s, t) && Sized(t, n) && Last(s, n, h)
    ensures Enabled(t, n, onDisk, Pass(h)) || Enabled(t, n, onDisk, Advance(h))
  {
    h := SomebodyIsLast(s, n, n);
    if s.host[h].passed {
      Stay(Talks(n, onDisk), s);
      t := s;
    } else {
      t := LastCanPass(s, n, onDisk, h);
    }
  }

  // ---------------------------------------------------------------- stale slots

  /** Two members, both through the wait of phase `c`, with their copies of each other's slot. */
  ghost predicate Lockstep(s: Net, c: nat, view0: Slot, view1: Slot) {
    && Reachable(s, 2, {0, 1}) && Sized(s, 2)
    && s.host[0].count == c && s.host[1].count == c && s.host[0].passed && s.host[1].passed
    && s.host[0].sfView == [view0, view1] && s.host[1].sfView == [view0, view1]
  }

  ghost predicate Entered(s: Net, c: nat) {
    && Reachable(s, 2, {0, 1}) && Sized(s, 2)
    && s.host[0].count == c && s.host[1].count == c && !s.host[0].passed && !s.host[1].passed
  }

  lemma Enter(s: Net, c: nat, v0: Slot, v1: Slot) returns (t: Net)
    requires Lockstep(s, c, v0, v1)
    ensures Entered(t, c + 1) && t.host[0].sfView == [v0, v1] && t.host[1].sfView == [v0, v1]
    ensures t.host[0].weight == s.host[0].weight && t.host[1].weight == s.host[1].weight
  {
    t := StepReachable(s, 2, {0, 1}, Advance(0));
    t := StepReachable(t, 2, {0, 1}, Advance(1));
  }

  lemma BothSend(s: Net, c: nat) returns (t: Net)
    requires Entered(s, c)
    ensures Entered(t, c) && t.host[0].sfView == s.host[0].sfView && t.host[1].sfView == s.host[1].sfView
    ensures t.host[0].weight == s.host[0].weight && t.host[1].weight == s.host[1].weight
    ensures t.host[1].buffer == s.host[1].buffer
    ensures t.host[0].hbPhase[0] == c && t.host[1].hbPhase[1] == c
    ensures Packet(0, t.host[0].sent, c) in t.wire && Packet(1, t.host[1].sent, c) in t.wire
    ensures t.host[0].hbSeq[1] < t.host[1].sent && t.host[1].hbSeq[0] < t.host[0].sent
  {
    ReachableViews(s, 2, {0, 1}, 0, 1);
    t := StepReachable(s, 2, {0, 1}, Send(0));
    t := StepReachable(t, 2, {0, 1}, Send(1));
  }

  /** Both members send a heartbeat and receive the other's. */
  lemma Exchange(s: Net, c: nat) returns (t: Net)
    requires Entered(s, c)
    ensures Entered(t, c) && t.host[0].sfView == s.host[0].sfView && t.host[1].sfView == s.host[1].sfView
    ensures t.host[0].weight == s.host[0].weight && t.host[1].weight == s.host[1].weight
    ensures t.host[1].buffer == s.host[1].buffer
    ensures t.host[0].hbPhase == [c, c] && t.host[1].hbPhase == [c, c]
  {
    var u := BothSend(s, c);
    var v := StepReachable(u, 2, {0, 1}, Receive(0, Packet(1, u.host[1].sent, c)));
    assert v.host[0].hbPhase == [c, c];
    t := StepReachable(v, 2, {0, 1}, Receive(1, Packet(0, u.host[0].sent, c)));
    assert t.host[1].hbPhase == [c, c];
  }

  lemma BothWrite(s: Net, c: nat) returns (t: Net)
    requires Entered(s, c) && s.host[0].hbPhase == [c, c] && s.host[1].hbPhase == [c, c]
    ensures Entered(t, c) && t.host[0].hbPhase == [c, c] && t.host[1].hbPhase == [c, c]
    ensures t.host[0].weight == s.host[0].weight && t.host[1].weight == s.host[1].weight
    ensures t.disk == [Slot(c, s.host[0].weight), Slot(c, s.host[1].weight)]
  {
    t := StepReachable(s, 2, {0, 1}, Write(0));
    t := StepReachable(t, 2, {0, 1}, Write(1));
  }

  lemma BothRead(s: Net, c: nat) returns (t: Net)
    requires Entered(s, c) && s.host[0].hbPhase == [c, c] && s.host[1].hbPhase == [c, c]
    ensures Entered(t, c) && t.host[0].hbPhase == [c, c] && t.host[1].hbPhase == [c, c]
    ensures t.host[0].weight == s.host[0].weight && t.host[1].weight == s.host[1].weight
    ensures t.host[0].buffer[1] == s.disk[1] && t.host[1].buffer[0] == s.disk[0]
  {
    t := StepReachable(s, 2, {0, 1}, ReadSlot(0, 1));
    t := StepReachable(t, 2, {0, 1}, ReadSlot(1, 0));
  }

  /** Both members write their slot and read the state file. */
  lemma Refresh(s: Net, c: nat) returns (t: Net)
    requires Entered(s, c) && s.host[0].hbPhase == [c, c] && s.host[1].hbPhase == [c, c]
    ensures Entered(t, c) && t.host[0].hbPhase == [c, c] && t.host[1].hbPhase == [c, c]
    ensures t.host[0].weight == s.host[0].weight && t.host[1].weight == s.host[1].weight
    ensures var v0, v1 := Slot(c, s.host[0].weight), Slot(c, s.host[1].weight);
            t.host[0].sfView == [v0, v1] && t.host[1].sfView == [v0, v1]
  {
    t := BothWrite(s, c);
    t := BothRead(t, c);
    t := StepReachable(t, 2, {0, 1}, Publish(0));
    t := StepReachable(t, 2, {0, 1}, Publish(1));
  }

  lemma Leave(s: Net, c: nat, v0: Slot, v1: Slot) returns (t: Net)
    requires Entered(s, c) && s.host[0].hbPhase == [c, c] && s.host[1].hbPhase == [c, c]
    requires s.host[0].sfView == [v0, v1] && s.host[1].sfView == [v0, v1]
    requires OnStatefile(c) ==> Matches(v0.phase, c) && Matches(v1.phase, c)
    ensures Lockstep(t, c, v0, v1)
    ensures t.host[0].weight == s.host[0].weight && t.host[1].weight == s.host[1].weight
  {
    t := StepReachable(s, 2, {0, 1}, Pass(0));
    t := StepReachable(t, 2, {0, 1}, Pass(1));
  }

  /** One phase without any state-file access: possible whenever the old copies match by name. */
  lemma QuietPhase(s: Net, c: nat, v0: Slot, v1: Slot) returns (t: Net)
    requires Lockstep(s, c, v0, v1)
    requires OnStatefile(c + 1) ==> Matches(v0.phase, c + 1) && Matches(v1.phase, c + 1)
    ensures Lockstep(t, c + 1, v0, v1)
    ensures t.host[0].weight == s.host[0].weight && t.host[1].weight == s.host[1].weight
  {
    t := Enter(s, c, v0, v1);
    t := Exchange(t, c + 1);
    t := Leave(t, c + 1, v0, v1);
  }

  lemma {:induction false} QuietPhases(s: Net, c: nat, v0: Slot, v1: Slot, d: nat) returns (t: Net)
    requires Lockstep(s, c, v0, v1) && c <= d
    requires forall x :: c < x <= d && OnStatefile(x) ==> Matches(v0.phase, x) && Matches(v1.phase, x)
    ensures Lockstep(t, d, v0, v1)
    ensures t.host[0].weight == s.host[0].weight && t.host[1].weight == s.host[1].weight
    decreases d - c
  {
    if c == d {
      t := s;
    } else {
      t := QuietPhase(s, c, v0, v1);
      t := QuietPhases(t, c + 1, v0, v1, d);
    }
  }

  lemma FreshPhase(s: Net, c: nat, v0: Slot, v1: Slot) returns (t: Net, w0: Slot, w1: Slot)
    requires Lockstep(s, c, v0, v1)
    ensures Lockstep(t, c + 1, w0, w1) && w0 == Slot(c + 1, s.host[0].weight) && w1 == Slot(c + 1, s.host[1].weight)
    ensures t.host[0].weight == s.host[0].weight && t.host[1].weight == s.host[1].weight
  {
    t := Enter(s, c, v0, v1);
    t := Exchange(t, c + 1);
    t := Refresh(t, c + 1);
    w0, w1 := Slot(c + 1, s.host[0].weight), Slot(c + 1, s.host[1].weight);
    t := Leave(t, c + 1, w0, w1);
  }

  lemma Start(w: U32) returns (t: Net)
    ensures Lockstep(t, 0, Slot(0, w), Slot(0, w)) && t.host[0].weight == w && t.host[1].weight == w
  {
    var v := Slot(0, w);
    var start := HostState(0, true, w, 0, [0, 0], [0, 0], [v, v], [v, v]);
    t := Net([start, start], {}, [v, v]);
    assert Init(t, 2);
    Stay(Steps(2, {0, 1}), t);
  }

  /** No phase from `c` on up to `d` waits for the state file. */
  lemma NoSlotNeeded(c: nat, d: nat)
    requires (c == 0 && d == 2) || (c == 4 && d == 12)
    ensures forall x :: c < x <= d ==> !OnStatefile(x)
  {
  }

  /** The slots of FH2 match by name in the waits of the next round. */
  lemma OldSlotMatches(x: nat, v: Slot)
    requires 12 < x <= 14 && v.phase == 4
    ensures Matches(v.phase, x)
  {
  }

  /** One whole round in which both slots are read for the last time in FH2. */
  lemma FirstRound(w: U32) returns (t: Net)
    ensures Lockstep(t, 12, Slot(4, w), Slot(4, w)) && t.host[0].weight == w
  {
    var v := Slot(0, w);
    t := Start(w);
    NoSlotNeeded(0, 2);
    t := QuietPhases(t, 0, v, v, 2);
    var v0, v1;
    t, v0, v1 := FreshPhase(t, 2, v, v);
    t, v0, v1 := FreshPhase(t, 3, v0, v1);
    NoSlotNeeded(4, 12);
    t := QuietPhases(t, 4, v0, v1, 12);
  }

  lemma CommitInLockstep(s: Net, c: nat, v0: Slot, v1: Slot, weight: U32) returns (t: Net)
    requires Lockstep(s, c, v0, v1) && Name(c) == Fh1
    ensures Lockstep(t, c, v0, v1) && t.host[0].weight == weight
  {
    t := StepReachable(s, 2, {0, 1}, Commit(0, weight));
  }

  /**
   The names do alias on the state file. Two members complete one round, read no slot afterwards,
   and enter the bodies of the next FH2 on last round's copies: host 0 has committed `later`, but
   host 1 still holds `earlier` for it.
   */
  lemma StaleSlotPassesIntoFh2(earlier: U32, later: U32) returns (t: Net)
    requires earlier != later
    ensures Reachable(t, 2, {0, 1}) && Sized(t, 2)
    ensures InBody(t.host[1]) && Name(t.host[1].count) == Fh2 && t.host[1].count == 14
    ensures t.host[0].weight == later && t.host[1].sfView[0] == Slot(4, earlier)
  {
    t := FirstRound(earlier);
    t := CommitInLockstep(t, 12, Slot(4, earlier), Slot(4, earlier), later);
    forall x: nat | 12 < x <= 14
      ensures Matches(Slot(4, earlier).phase, x)
    {
      OldSlotMatches(x, Slot(4, earlier));
    }
    t := QuietPhases(t, 12, Slot(4, earlier), Slot(4, earlier), 14);
    InFh2OfSecondRound(t.host[1]);
  }

  lemma InFh2OfSecondRound(h: HostState)
    requires h.passed && h.count == 14
    ensures InBody(h) && Name(h.count) == Fh2
  {
  }

  /** Host 1 has read host 0's slot of phase 12, but still works with the one of phase 4. */
  ghost predicate ReadAhead(s: Net, c: nat, w: U32) {
    && Reachable(s, 2, {0, 1}) && Sized(s, 2)
    && s.host[0].count == c && s.host[1].count == c && s.host[0].passed && s.host[1].passed
    && s.host[1].buffer[0] == Slot(12, w) && s.host[1].sfView == [Slot(4, w), Slot(4, w)]
    && s.host[0].sfView[1] == Slot(4, w)
  }

  /** The copies that host 1 has, and host 0's copy of host 1. */
  ghost predicate HoldsAhead(s: Net, w: U32) {
    && Sized(s, 2) && s.host[1].buffer[0] == Slot(12, w)
    && s.host[1].sfView == [Slot(4, w), Slot(4, w)] && s.host[0].sfView[1] == Slot(4, w)
  }

  lemma EnterReadAhead(s: Net, c: nat, w: U32) returns (t: Net)
    requires ReadAhead(s, c, w)
    ensures Entered(t, c + 1) && HoldsAhead(t, w)
  {
    t := StepReachable(s, 2, {0, 1}, Advance(0));
    t := StepReachable(t, 2, {0, 1}, Advance(1));
  }

  lemma WriteReadAhead(s: Net, c: nat, w: U32) returns (t: Net)
    requires Entered(s, c) && HoldsAhead(s, w) && s.host[0].hbPhase == [c, c] && s.host[1].hbPhase == [c, c]
    ensures Entered(t, c) && HoldsAhead(t, w) && t.host[0].hbPhase == [c, c] && t.host[1].hbPhase == [c, c]
    ensures t.host[0].sfView[0].phase == c
  {
    t := StepReachable(s, 2, {0, 1}, Write(0));
  }

  lemma LeaveReadAhead(s: Net, c: nat, w: U32) returns (t: Net)
    requires Entered(s, c) && HoldsAhead(s, w) && s.host[0].hbPhase == [c, c] && s.host[1].hbPhase == [c, c]
    requires s.host[0].sfView[0].phase == c && Matches(4, c)
    ensures ReadAhead(t, c, w)
  {
    assert Rendezvoused(s.host[0], 2, {0, 1}) && Rendezvoused(s.host[1], 2, {0, 1});
    t := StepReachable(s, 2, {0, 1}, Pass(0));
    t := StepReachable(t, 2, {0, 1}, Pass(1));
  }

  lemma NextPhaseReadAhead(s: Net, c: nat, w: U32) returns (t: Net)
    requires ReadAhead(s, c, w) && 12 <= c < 14
    ensures ReadAhead(t, c + 1, w)
  {
    t := EnterReadAhead(s, c, w);
    t := Exchange(t, c + 1);
    t := WriteReadAhead(t, c + 1, w);
    OldSlotMatches(c + 1, Slot(4, w));
    t := LeaveReadAhead(t, c + 1, w);
  }

  lemma ReadsAhead(w: U32) returns (t: Net)
    ensures ReadAhead(t, 12, w)
  {
    t := FirstRound(w);
    t := StepReachable(t, 2, {0, 1}, Write(0));
    t := StepReachable(t, 2, {0, 1}, ReadSlot(1, 0));
  }

  lemma PublishesLate(s: Net, w: U32) returns (t: Net)
    requires ReadAhead(s, 14, w)
    ensures Reachable(t, 2, {0, 1}) && Sized(t, 2) && t.host[1].passed && t.host[1].count == 14
    ensures t.host[1].sfView[0].phase == 12
  {
    t := StepReachable(s, 2, {0, 1}, Publish(1));
  }

  lemma EntersFh2ReadAhead(w: U32) returns (t: Net)
    ensures ReadAhead(t, 14, w)
  {
    t := ReadsAhead(w);
    t := NextPhaseReadAhead(t, 12, w);
    t := NextPhaseReadAhead(t, 13, w);
  }

  /**
   A slot that was read in an earlier phase may become visible late: host 1, which entered FH2 on a copy of last round,
   publishes one of FH1 in its body.
   */
  lemma LateCopyInFh2(w: U32) returns (t: Net)
    ensures Reachable(t, 2, {0, 1}) && Sized(t, 2) && InBody(t.host[1]) && Name(t.host[1].count) == Fh2
    ensures t.host[1].sfView[0].phase < t.host[1].count < t.host[1].sfView[0].phase + 9
  {
    t := EntersFh2ReadAhead(w);
    t := PublishesLate(t, w);
    InFh2OfSecondRound(t.host[1]);
  }
}
