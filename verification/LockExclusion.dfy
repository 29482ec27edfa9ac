/**
 The lock manager over the real data path: a host's flags travel from its memory to its write
 buffer, to its disk slot, to the reader's buffer and at last into the reader's cached row, and
 every hop may lag arbitrarily.
 */
module LockExclusion {
  import opened Hosts
  import opened LockManager
  import opened Runs

  /** One host: `row[me]` is its own memory, the other rows are its cached copies. */
  datatype Node = Node(row: seq<Lm>, pending: bool, cancel: bool, out: Lm, inbox: seq<Lm>)

  /**
   `clean[h]` records that when h's present request was raised no copy of a grant to h or of an
   earlier request of h was left anywhere; `raised[h]` counts h's requests.
   */
  datatype Sys = Sys(node: seq<Node>, disk: seq<Lm>, clean: seq<bool>, raised: seq<nat>)

  datatype Action =
    | Order(h: nat, cancel: bool)  // lm_request_lock or lm_cancel_lock
    | Pass(h: nat)                 // one pass of lock_mgr
    | Prepare(h: nat)              // write_hostspecific copies the local row
    | Flush(h: nat)                // sf_writehostspecific
    | ReadSlot(h: nat, g: nat)     // sf_readhostspecific
    | Publish(h: nat)              // readsf copies the buffer into psf->lm

  ghost predicate Sized(s: Sys, n: nat) {
    && |s.node| == n && |s.disk| == n && |s.clean| == n && |s.raised| == n
    && forall h :: 0 <= h < n ==> |s.node[h].row| == n && |s.node[h].inbox| == n
  }

  predicate Enabled(n: nat, a: Action) {
    a.h < n && (a.ReadSlot? ==> a.g < n)
  }

  /** No trace of an earlier request of `b`, and no trace of a grant to `b`, outside `b`. */
  predicate NoTrace(s: Sys, n: nat, b: nat)
    requires Sized(s, n) && b < n
  {
    && !s.node[b].out.request && !s.disk[b].request
    && forall g :: 0 <= g < n && g != b ==>
         && !s.node[g].inbox[b].request && !s.node[g].row[b].request
         && b !in s.node[g].row[g].grant && b !in s.node[g].out.grant && b !in s.disk[g].grant
         && b !in s.node[b].inbox[g].grant && b !in s.node[b].row[g].grant
  }

  function PassOn(s: Sys, n: nat, online: HostMap, h: nat): Sys
    requires Sized(s, n) && h < n && h in online
  {
    var me := s.node[h];
    var own := Step(me.row, online, n, h, me.pending, me.cancel);
    var raises := own.request && !me.row[h].request;
    var pending := NewPending(me.row, online, n, h, me.pending, me.cancel);
    s.(node := s.node[h := Node(me.row[h := own], pending, false, me.out, me.inbox)],
       clean := s.clean[h := if raises then NoTrace(s, n, h) else own.request && s.clean[h]],
       raised := s.raised[h := if raises then s.raised[h] + 1 else s.raised[h]])
  }

  function Next(s: Sys, n: nat, online: HostMap, a: Action): (t: Sys)
    requires Sized(s, n) && Enabled(n, a)
    ensures Sized(t, n)
  {
    var me := s.node[a.h];
    match a
    case Order(h, cancel) =>
      s.(node := s.node[h := if cancel then me.(cancel := true) else me.(pending := true)])
    case Pass(h) => if h in online then PassOn(s, n, online, h) else s
    case Prepare(h) => s.(node := s.node[h := me.(out := me.row[h])])
    case Flush(h) => s.(disk := s.disk[h := me.out])
    case ReadSlot(h, g) => s.(node := s.node[h := me.(inbox := me.inbox[g := s.disk[g]])])
    case Publish(h) => s.(node := s.node[h := me.(row := me.inbox[h := me.row[h]])])
  }

  /** After the first clean-up of every host: no request, no grant, on no hop. */
  ghost predicate Init(s: Sys, n: nat) {
    && Sized(s, n)
    && forall h :: 0 <= h < n ==>
         && s.disk[h] == Lm(false, {}) && s.node[h].out == Lm(false, {}) && !s.clean[h] && s.raised[h] == 0
         && forall g :: 0 <= g < n ==> s.node[h].row[g] == Lm(false, {}) && s.node[h].inbox[g] == Lm(false, {})
  }

  ghost predicate StepsTo(p: Sys, n: nat, online: HostMap, a: Action, s: Sys) {
    Sized(p, n) && Enabled(n, a) && s == Next(p, n, online, a)
  }

  /** Some host takes a step. */
  ghost function Steps(n: nat, online: HostMap): (Sys, Sys) -> bool {
    (p, q) => exists a: Action :: StepsTo(p, n, online, a, q)
  }

  ghost predicate Reachable(s: Sys, n: nat, online: HostMap) {
    exists r :: Init(r, n) && LeadsTo(Steps(n, online), r, s)
  }

  /** Each step of the data path copies one stage of one host's flags, and a read never touches the reader's own row. */
  lemma HopsCopyOneStage(s: Sys, n: nat, online: HostMap, a: Action, h: nat, g: nat)
    requires Sized(s, n) && Enabled(n, a) && !a.Pass? && h < n && g < n
    ensures var t := Next(s, n, online, a);
      && t.node[h].out == (if a == Prepare(h) then s.node[h].row[h] else s.node[h].out)
      && t.disk[h] == (if a == Flush(h) then s.node[h].out else s.disk[h])
      && t.node[h].inbox[g] == (if a == ReadSlot(h, g) then s.disk[g] else s.node[h].inbox[g])
      && t.node[h].row[g] == (if a == Publish(h) && g != h then s.node[h].inbox[g] else s.node[h].row[g])
      && (t.node[h].pending <==> s.node[h].pending || a == Order(h, false))
      && (t.node[h].cancel <==> s.node[h].cancel || a == Order(h, true))
  {
  }

  /** Whether a request is clean is decided when it is raised, and stays so until it is taken down. */
  lemma CleanFromRaiseToCancel(s: Sys, n: nat, online: HostMap, a: Action, h: nat)
    requires Sized(s, n) && Enabled(n, a) && h < n && (s.clean[h] ==> s.node[h].row[h].request)
    ensures var t := Next(s, n, online, a);
      var was, now := s.node[h].row[h].request, t.node[h].row[h].request;
      && (was && now ==> t.clean[h] == s.clean[h] && t.raised[h] == s.raised[h])
      && (!was && now ==> t.clean[h] == NoTrace(s, n, h) && t.raised[h] == s.raised[h] + 1)
      && (!now ==> !t.clean[h] && t.raised[h] == s.raised[h])
  {
  }

  // ---------------------------------------------------------------- invariant

  /** A clean request of `b` is up, and each hop towards `g` only lags behind the one before. */
  ghost predicate RequestChain(s: Sys, n: nat, b: nat, g: nat)
    requires Sized(s, n) && b < n && g < n
  {
    && (s.node[g].row[b].request ==> s.node[g].inbox[b].request)
    && (s.node[g].inbox[b].request ==> s.disk[b].request)
    && (s.disk[b].request ==> s.node[b].out.request)
    && (b in s.node[g].row[g].grant ==> s.node[g].row[b].request)
  }

  /** Each copy of `g`'s grant to `b` is backed by the hop before it, down to `g`'s memory. */
  ghost predicate GrantChain(s: Sys, n: nat, b: nat, g: nat)
    requires Sized(s, n) && b < n && g < n
  {
    && (b in s.node[b].row[g].grant ==> b in s.node[b].inbox[g].grant)
    && (b in s.node[b].inbox[g].grant ==> b in s.disk[g].grant)
    && (b in s.disk[g].grant ==> b in s.node[g].out.grant)
    && (b in s.node[g].out.grant ==> b in s.node[g].row[g].grant)
  }

  ghost predicate HostOk(s: Sys, n: nat, online: HostMap, b: nat)
    requires Sized(s, n) && b < n
  {
    && NoGrantBelow(b, s.node[b].row[b], n)
    && (s.clean[b] ==> s.node[b].row[b].request && b in online)
    && (s.raised[b] == 0 ==> !s.node[b].row[b].request && NoTrace(s, n, b))
  }

  ghost predicate PairOk(s: Sys, n: nat, b: nat, g: nat)
    requires Sized(s, n) && b < n && g < n
  {
    s.clean[b] ==> RequestChain(s, n, b, g) && GrantChain(s, n, b, g)
  }

  ghost predicate Inv(s: Sys, n: nat, online: HostMap) {
    && Sized(s, n)
    && (forall b :: 0 <= b < n ==> HostOk(s, n, online, b))
    && (forall b, g :: 0 <= b < n && 0 <= g < n && g != b ==> PairOk(s, n, b, g))
  }

  /** A pass withdraws a grant only from a host it no longer sees requesting, and grants only requesters. */
  lemma StepGrants(lm: seq<Lm>, online: HostMap, n: nat, me: nat, pending: bool, cancel: bool, b: nat)
    requires |lm| == n && me < n && b < n
    ensures var own := Step(lm, online, n, me, pending, cancel);
            && (b in own.grant ==> lm[b].request && b in online)
            && (b in lm[me].grant && lm[b].request && b in online ==> b in own.grant)
  {
  }

  lemma PassKeepsHosts(s: Sys, n: nat, online: HostMap, h: nat, b: nat)
    requires Inv(s, n, online) && h < n && h in online && b < n
    ensures HostOk(PassOn(s, n, online, h), n, online, b)
  {
    var me := s.node[h];
    assert HostOk(s, n, online, b) && HostOk(s, n, online, h);
    StepKeepsPriority(me.row, online, n, h, me.pending, me.cancel);
    StepGrants(me.row, online, n, h, me.pending, me.cancel, b);
  }

  lemma PassKeepsPairs(s: Sys, n: nat, online: HostMap, h: nat, b: nat, g: nat)
    requires Inv(s, n, online) && h < n && h in online && b < n && g < n && g != b
    ensures PairOk(PassOn(s, n, online, h), n, b, g)
  {
    var me := s.node[h];
    assert HostOk(s, n, online, b) && PairOk(s, n, b, g);
    StepGrants(me.row, online, n, h, me.pending, me.cancel, b);
  }

  lemma CopyKeepsHost(s: Sys, n: nat, online: HostMap, a: Action, b: nat)
    requires Inv(s, n, online) && Enabled(n, a) && !a.Pass? && b < n
    ensures HostOk(Next(s, n, online, a), n, online, b)
  {
    assert HostOk(s, n, online, b);
  }

  lemma CopyKeepsPair(s: Sys, n: nat, online: HostMap, a: Action, b: nat, g: nat)
    requires Inv(s, n, online) && Enabled(n, a) && !a.Pass? && b < n && g < n && g != b
    ensures PairOk(Next(s, n, online, a), n, b, g)
  {
    assert HostOk(s, n, online, b) && PairOk(s, n, b, g);
  }

  lemma CopyKeepsInv(s: Sys, n: nat, online: HostMap, a: Action)
    requires Inv(s, n, online) && Enabled(n, a) && !a.Pass?
    ensures Inv(Next(s, n, online, a), n, online)
  {
    forall b | 0 <= b < n
      ensures HostOk(Next(s, n, online, a), n, online, b)
    {
      CopyKeepsHost(s, n, online, a, b);
    }
    forall b, g | 0 <= b < n && 0 <= g < n && g != b
      ensures PairOk(Next(s, n, online, a), n, b, g)
    {
      CopyKeepsPair(s, n, online, a, b, g);
    }
  }

  lemma StepKeepsInv(s: Sys, n: nat, online: HostMap, a: Action)
    requires Inv(s, n, online) && Enabled(n, a)
    ensures Inv(Next(s, n, online, a), n, online)
  {
    if a.Pass? && a.h in online {
      var t := PassOn(s, n, online, a.h);
      forall b | 0 <= b < n
        ensures HostOk(t, n, online, b)
      {
        PassKeepsHosts(s, n, online, a.h, b);
      }
      forall b, g | 0 <= b < n && 0 <= g < n && g != b
        ensures PairOk(t, n, b, g)
      {
        PassKeepsPairs(s, n, online, a.h, b, g);
      }
    } else if !a.Pass? {
      CopyKeepsInv(s, n, online, a);
    }
  }

  lemma InitInv(s: Sys, n: nat, online: HostMap)
    requires Init(s, n)
    ensures Inv(s, n, online)
  {
  }

  ghost function InvOf(n: nat, online: HostMap): Sys -> bool {
    s => Inv(s, n, online)
  }

  /** The invariant holds in every state of every run. */
  lemma ReachableInv(s: Sys, n: nat, online: HostMap)
    requires Reachable(s, n, online)
    ensures Inv(s, n, online)
  {
    var r :| Init(r, n) && LeadsTo(Steps(n, online), r, s);
    InitInv(r, n, online);
    forall p, q | InvOf(n, online)(p) && Steps(n, online)(p, q)
      ensures InvOf(n, online)(q)
    {
      var a :| StepsTo(p, n, online, a, q);
      StepKeepsInv(p, n, online, a);
    }
    Keeps(Steps(n, online), InvOf(n, online), r, s);
  }

  // ---------------------------------------------------------------- exclusion

  /** Host `h` has its request up and finds itself locked in its own cached view. */
  ghost predicate SeesLock(s: Sys, n: nat, online: HostMap, h: nat)
    requires Sized(s, n) && h < n
  {
    s.node[h].row[h].request && IsLocked(s.node[h].row, online, n, h)
  }

  /** A host that sees itself locked on a clean request: no online host of higher priority is requesting. */
  lemma CleanLockExcludesHigher(s: Sys, n: nat, online: HostMap, a: nat, b: nat)
    requires Reachable(s, n, online) && a < b < n && a in online
    ensures Sized(s, n)
    ensures s.clean[b] && SeesLock(s, n, online, b) ==> !s.node[a].row[a].request
  {
    ReachableInv(s, n, online);
    assert HostOk(s, n, online, a) && PairOk(s, n, b, a);
  }

  /**
   Two hosts never both see themselves locked, however stale the copies, provided the one of lower priority raised its
   request when no trace of an earlier one was left. The request of the other one may be any.
   */
  lemma LockExclusion(s: Sys, n: nat, online: HostMap, a: nat, b: nat)
    requires Reachable(s, n, online) && a < b < n
    ensures Sized(s, n)
    ensures s.clean[b] ==> !(SeesLock(s, n, online, a) && SeesLock(s, n, online, b))
  {
    ReachableInv(s, n, online);
    if a in online {
      CleanLockExcludesHigher(s, n, online, a, b);
    }
  }

  /** A host's first request is always clean. */
  lemma FirstRequestIsClean(s: Sys, n: nat, online: HostMap, a: Action, b: nat)
    requires Reachable(s, n, online) && Enabled(n, a) && b < n && Sized(s, n) && s.raised[b] == 0
    ensures var t := Next(s, n, online, a);
            t.raised[b] > 0 ==> t.raised[b] == 1 && t.clean[b] && t.node[b].row[b].request
  {
    ReachableInv(s, n, online);
    assert HostOk(s, n, online, b);
  }

  // ---------------------------------------------------------------- two hosts, without the clean condition

  lemma StepReachable(s: Sys, n: nat, online: HostMap, a: Action) returns (t: Sys)
    requires Reachable(s, n, online) && Sized(s, n) && Enabled(n, a)
    ensures Reachable(t, n, online) && t == Next(s, n, online, a)
  {
    t := Next(s, n, online, a);
    assert StepsTo(s, n, online, a, t);
    var r :| Init(r, n) && LeadsTo(Steps(n, online), r, s);
    OneMore(Steps(n, online), r, s, t);
  }

  /** A row of a two-host pool: request, grant to host 0, grant to host 1. */
  datatype Flags = Flags(request: bool, g0: bool, g1: bool)

  function FlagsOf(l: Lm): Flags {
    Flags(l.request, 0 in l.grant, 1 in l.grant)
  }

  /** A reachable state of two online hosts without open orders: both memories, both cached copies, both slots. */
  ghost predicate At(s: Sys, own0: Flags, own1: Flags, copyAt0: Flags, copyAt1: Flags, disk0: Flags, disk1: Flags) {
    && Reachable(s, 2, {0, 1}) && Sized(s, 2)
    && !s.node[0].pending && !s.node[0].cancel && !s.node[1].pending && !s.node[1].cancel
    && FlagsOf(s.node[0].row[0]) == own0 && FlagsOf(s.node[1].row[1]) == own1
    && FlagsOf(s.node[0].row[1]) == copyAt0 && FlagsOf(s.node[1].row[0]) == copyAt1
    && FlagsOf(s.disk[0]) == disk0 && FlagsOf(s.disk[1]) == disk1
  }

  datatype Todo = Nothing | Raise | Drop

  function Pass0Flags(own: Flags, copy: Flags, todo: Todo): Flags {
    var request := todo != Drop && (own.request || todo == Raise);
    Flags(request, own.request, copy.request && (own.g1 || !request))
  }

  function Pass1Flags(own: Flags, copy: Flags, todo: Todo): Flags {
    Flags(todo != Drop && (own.request || todo == Raise), copy.request, own.request)
  }

  lemma GiveOrder(s: Sys, h: nat, todo: Todo, o0: Flags, o1: Flags, c0: Flags, c1: Flags, d0: Flags, d1: Flags)
    returns (t: Sys)
    requires At(s, o0, o1, c0, c1, d0, d1) && h < 2
    ensures Reachable(t, 2, {0, 1}) && Sized(t, 2) && t.disk == s.disk && t.node[1 - h] == s.node[1 - h]
    ensures t.node[h] == s.node[h].(pending := todo == Raise, cancel := todo == Drop)
  {
    t := s;
    if todo != Nothing {
      t := StepReachable(s, 2, {0, 1}, Order(h, todo == Drop));
    }
  }

  /** One pass over a two-host view, in flags. */
  lemma StepFlags(lm: seq<Lm>, me: nat, todo: Todo, own: Flags, copy: Flags)
    requires |lm| == 2 && me < 2 && FlagsOf(lm[me]) == own && FlagsOf(lm[1 - me]) == copy
    requires todo == Raise && me == 0 ==> !own.g0 && !copy.g0 && !own.g1
    requires todo == Raise && me == 1 ==> !own.g1 && !copy.g1
    ensures FlagsOf(Step(lm, {0, 1}, 2, me, todo == Raise, todo == Drop)) ==
            if me == 0 then Pass0Flags(own, copy, todo) else Pass1Flags(own, copy, todo)
    ensures !NewPending(lm, {0, 1}, 2, me, todo == Raise, todo == Drop)
  {
  }

  lemma Pass0(s: Sys, todo: Todo, o0: Flags, o1: Flags, c0: Flags, c1: Flags, d0: Flags, d1: Flags) returns (t: Sys)
    requires At(s, o0, o1, c0, c1, d0, d1)
    requires todo == Raise ==> !o0.g0 && !c0.g0 && !o0.g1
    ensures At(t, Pass0Flags(o0, c0, todo), o1, c0, c1, d0, d1)
  {
    StepFlags(s.node[0].row, 0, todo, o0, c0);
    var u := GiveOrder(s, 0, todo, o0, o1, c0, c1, d0, d1);
    t := StepReachable(u, 2, {0, 1}, Pass(0));
  }

  lemma Pass1(s: Sys, todo: Todo, o0: Flags, o1: Flags, c0: Flags, c1: Flags, d0: Flags, d1: Flags) returns (t: Sys)
    requires At(s, o0, o1, c0, c1, d0, d1)
    requires todo == Raise ==> !o1.g1 && !c1.g1
    ensures At(t, o0, Pass1Flags(o1, c1, todo), c0, c1, d0, d1)
  {
    StepFlags(s.node[1].row, 1, todo, o1, c1);
    var u := GiveOrder(s, 1, todo, o0, o1, c0, c1, d0, d1);
    t := StepReachable(u, 2, {0, 1}, Pass(1));
  }

  lemma Write(s: Sys, h: nat, o0: Flags, o1: Flags, c0: Flags, c1: Flags, d0: Flags, d1: Flags) returns (t: Sys)
    requires At(s, o0, o1, c0, c1, d0, d1) && h < 2
    ensures At(t, o0, o1, c0, c1, if h == 0 then o0 else d0, if h == 1 then o1 else d1)
  {
    t := StepReachable(s, 2, {0, 1}, Prepare(h));
    t := StepReachable(t, 2, {0, 1}, Flush(h));
  }

  lemma Read(s: Sys, h: nat, o0: Flags, o1: Flags, c0: Flags, c1: Flags, d0: Flags, d1: Flags) returns (t: Sys)
    requires At(s, o0, o1, c0, c1, d0, d1) && h < 2
    ensures At(t, o0, o1, if h == 0 then d1 else c0, if h == 1 then d0 else c1, d0, d1)
  {
    t := StepReachable(s, 2, {0, 1}, ReadSlot(h, 1 - h));
    t := StepReachable(t, 2, {0, 1}, Publish(h));
  }

  const Z: Flags := Flags(false, false, false)
  const Up: Flags := Flags(true, false, false)

  /** Both hosts request and cancel; host 1's cancelled request is still granted on host 0's slot. */
  lemma CancelledRequestsLeaveTraces() returns (t: Sys)
    ensures At(t, Flags(false, true, true), Flags(false, false, true), Flags(false, false, true), Up,
               Flags(false, true, true), Flags(false, false, true))
  {
    var l := Lm(false, {});
    var node := Node([l, l], false, false, l, [l, l]);
    t := Sys([node, node], [l, l], [false, false], [0, 0]);
    assert Init(t, 2);
    Stay(Steps(2, {0, 1}), t);
    t := Pass1(t, Raise, Z, Z, Z, Z, Z, Z);
    t := Write(t, 1, Z, Up, Z, Z, Z, Z);
    t := Pass0(t, Raise, Z, Up, Z, Z, Z, Up);
    t := Write(t, 0, Up, Up, Z, Z, Z, Up);
    t := Read(t, 0, Up, Up, Z, Z, Up, Up);
    t := Pass0(t, Drop, Up, Up, Up, Z, Up, Up);
    var o0 := Flags(false, true, true);
    t := Pass1(t, Drop, o0, Up, Up, Z, Up, Up);
    var o1 := Flags(false, false, true);
    t := Write(t, 1, o0, o1, Up, Z, Up, Up);
    t := Read(t, 1, o0, o1, Up, Z, Up, o1);
    t := Write(t, 0, o0, o1, Up, Up, Up, o1);
    t := Read(t, 0, o0, o1, Up, Up, o0, o1);
  }

  /** While host 0's old grant of host 1 is still travelling, host 1 grants host 0 and then requests on top of it. */
  lemma BothRaise() returns (t: Sys)
    ensures At(t, Up, Flags(true, true, false), Flags(false, false, true),
               Up, Flags(false, true, true), Flags(false, false, true))
  {
    t := CancelledRequestsLeaveTraces();
    var o0, o1, d0 := Flags(false, true, true), Flags(false, false, true), Flags(false, true, true);
    t := Pass0(t, Nothing, o0, o1, o1, Up, d0, o1);
    t := Pass0(t, Raise, Z, o1, o1, Up, d0, o1);
    t := Pass1(t, Nothing, Up, o1, o1, Up, d0, o1);
    t := Pass1(t, Raise, Up, Flags(false, true, false), o1, Up, d0, o1);
  }

  /**
   Without the clean condition exclusion fails: hosts that request, cancel and request again while
   old grants are still travelling can both see themselves as locked.
   */
  lemma FastRerequestsCanBothLock() returns (t: Sys)
    ensures Reachable(t, 2, {0, 1}) && Sized(t, 2)
    ensures SeesLock(t, 2, {0, 1}, 0) && SeesLock(t, 2, {0, 1}, 1)
  {
    t := BothRaise();
    var o1, d0 := Flags(false, false, true), Flags(false, true, true);
    var both := Flags(true, true, false);
    t := Write(t, 1, Up, both, o1, Up, d0, o1);
    t := Read(t, 0, Up, both, o1, Up, d0, both);
    t := Pass0(t, Nothing, Up, both, both, Up, d0, both);
    t := Read(t, 1, both, both, both, Up, d0, both);
    t := Pass1(t, Nothing, both, both, both, d0, d0, both);
  }
}
