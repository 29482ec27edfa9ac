/** The state-file lock manager (daemon/lock_mgr.c): one host's step, and the lock over one shared view. */
module LockManager {
  import opened Hosts

  /** psf->lm[i]: the request flag of host i and the hosts it has granted the lock. */
  datatype Lm = Lm(request: bool, grant: HostMap)

  // ---------------------------------------------------------------- one step

  /** am_i_ready_to_request, on the cached flags. */
  predicate Ready(lm: seq<Lm>, online: HostMap, n: nat, me: nat)
    requires |lm| == n && me < n
  {
    && (forall g :: 0 <= g < n && g in online ==> me !in lm[g].grant)
    && (forall g :: 0 <= g < n && g > me && g in online ==> g !in lm[me].grant)
  }

  /** The request flag after one pass of lock_mgr. */
  predicate NewRequest(lm: seq<Lm>, online: HostMap, n: nat, me: nat, pending: bool, cancel: bool)
    requires |lm| == n && me < n
  {
    !cancel && (lm[me].request || (pending && Ready(lm, online, n, me)))
  }

  /** Hosts whose grant the pass withdraws. */
  function Withdrawn(lm: seq<Lm>, online: HostMap, n: nat): HostMap
    requires |lm| == n
  {
    set g | g in Configured(n) && (!lm[g].request || g !in online)
  }

  /** Hosts that the pass grants, given the local request flag. */
  function Granted(lm: seq<Lm>, online: HostMap, n: nat, me: nat, request: bool): HostMap
    requires |lm| == n
  {
    set g | g in Configured(n) && lm[g].request && g in online && (!request || g <= me)
  }

  /** The local flags after one pass of lock_mgr on an online host; `lm` is what the host has cached. */
  function Step(lm: seq<Lm>, online: HostMap, n: nat, me: nat, pending: bool, cancel: bool): Lm
    requires |lm| == n && me < n
  {
    var request := NewRequest(lm, online, n, me, pending, cancel);
    Lm(request, lm[me].grant - Withdrawn(lm, online, n) + Granted(lm, online, n, me, request))
  }

  /** What is left of the request and cancel orders after the pass. */
  predicate NewPending(lm: seq<Lm>, online: HostMap, n: nat, me: nat, pending: bool, cancel: bool)
    requires |lm| == n && me < n
  {
    pending && !cancel && !Ready(lm, online, n, me)
  }

  predicate IsLocked(lm: seq<Lm>, online: HostMap, n: nat, x: nat)
    requires |lm| == n
  {
    x in online && forall g :: 0 <= g < n && g in online ==> x in lm[g].grant
  }

  /** get_lock_node: the lowest locked host, -1 (INVALID_NODE) if there is none. */
  function LockNode(lm: seq<Lm>, online: HostMap, n: nat, k: nat): (x: int)
    requires |lm| == n && k <= n
    ensures x == -1 || (k <= x < n && IsLocked(lm, online, n, x))
    ensures forall i :: k <= i < (if x == -1 then n else x) ==> !IsLocked(lm, online, n, i)
    decreases n - k
  {
    if k == n then -1 else if IsLocked(lm, online, n, k) then k else LockNode(lm, online, n, k + 1)
  }

  class LockMgr {
    const n: nat
    const me: nat
    var lm: seq<Lm>              // psf->lm
    var cached: seq<Lm>          // lmvar.sf.lm
    var online: HostMap          // lmvar.sm.current_liveset
    var sfAccess: bool
    var pendingRequest: bool
    var cancelRequest: bool
    var firstCleanupDone: bool

    ghost predicate Valid()
      reads this
    {
      |lm| == n && me < n && cached == lm
    }

    /** lm_initialize_lm_fields: no requests, nobody granted, except that the local row grants everybody. */
    constructor (n: nat, me: nat)
      requires me < n
      ensures Valid() && this.n == n && this.me == me && !firstCleanupDone
      ensures forall i :: 0 <= i < n ==> !lm[i].request && lm[i].grant == if i == me then Configured(n) else {}
    {
      this.n := n;
      this.me := me;
      var blank := seq(n, _ => Lm(false, {}));
      var all := Configured(n);
      lm := blank[me := Lm(false, all)];
      cached := blank[me := Lm(false, all)];
      online := {};
      sfAccess, pendingRequest, cancelRequest, firstCleanupDone := false, false, false, false;
    }

    method AmIReadyToRequest() returns (ready: bool)
      requires |cached| == n && me < n
      ensures ready == Ready(cached, online, n, me)
    {
      ready := true;
      for index := 0 to n
        invariant ready <==> forall g :: 0 <= g < index && g in online ==> me !in cached[g].grant
      {
        ready := ready && (if index in online then me !in cached[index].grant else true);
      }
      for index := 0 to n
        invariant ready <==> (forall g :: 0 <= g < n && g in online ==> me !in cached[g].grant) &&
                             (forall g :: 0 <= g < index && g > me && g in online ==> g !in cached[me].grant)
      {
        ready := ready && (if !(me >= index) && index in online then index !in cached[me].grant else true);
      }
    }

    method IsLockedBy(x: nat) returns (locked: bool)
      requires Valid()
      ensures locked == IsLocked(cached, online, n, x)
    {
      locked := x in online;
      for index := 0 to n
        invariant locked <==> x in online && forall g :: 0 <= g < index && g in online ==> x in cached[g].grant
      {
        locked := locked && (if index in online then x in cached[index].grant else true);
      }
    }

    method GetLockNode() returns (x: int)
      requires Valid()
      ensures x == LockNode(cached, online, n, 0)
    {
      var index := 0;
      while index < n
        invariant 0 <= index <= n
        invariant LockNode(cached, online, n, 0) == LockNode(cached, online, n, index)
      {
        var locked := IsLockedBy(index);
        if locked {
          return index;
        }
        index := index + 1;
      }
      return -1;
    }

    /** Withdraw the grants whose request is gone. */
    method WithdrawGrants()
      requires Valid()
      modifies this`lm
      ensures lm == old(lm)[me := old(lm[me]).(grant := old(lm[me].grant) - Withdrawn(cached, online, n))]
    {
      for index := 0 to n
        invariant |lm| == n && lm == old(lm)[me := Lm(old(lm[me].request), lm[me].grant)]
        invariant lm[me].grant == old(lm[me].grant) - (set g | g in Withdrawn(cached, online, n) && g < index)
      {
        if !cached[index].request || index !in online {
          lm := lm[me := lm[me].(grant := lm[me].grant - {index})];
        }
      }
      assert lm[me].grant == old(lm[me].grant) - Withdrawn(cached, online, n);
    }

    /** Carry out the request and cancel orders on the local row. */
    method ProcessOrders()
      requires |lm| == n && |cached| == n && me < n && lm[me].request == cached[me].request
      modifies this`lm, this`pendingRequest, this`cancelRequest
      ensures var request := NewRequest(cached, online, n, me, old(pendingRequest), old(cancelRequest));
              lm == old(lm)[me := Lm(request, old(lm[me].grant))]
      ensures pendingRequest == NewPending(cached, online, n, me, old(pendingRequest), old(cancelRequest))
      ensures !cancelRequest
    {
      var ready := AmIReadyToRequest();
      if pendingRequest && ready {
        lm := lm[me := lm[me].(request := true)];
        pendingRequest := false;
      }
      if cancelRequest {
        lm := lm[me := lm[me].(request := false)];
        pendingRequest := false;
        cancelRequest := false;
      }
    }

    /** Grant the requesters that the local request does not outrank. */
    method GrantOthers()
      requires |lm| == n && |cached| == n && me < n
      modifies this`lm
      ensures var granted := Granted(cached, online, n, me, old(lm[me].request));
              lm == old(lm)[me := old(lm[me]).(grant := old(lm[me].grant) + granted)]
    {
      ghost var granted := Granted(cached, online, n, me, lm[me].request);
      for index := 0 to n
        invariant |lm| == n && lm == old(lm)[me := Lm(old(lm[me].request), lm[me].grant)]
        invariant lm[me].grant == old(lm[me].grant) + (set g | g in granted && g < index)
      {
        if cached[index].request && index in online {
          if !lm[me].request || me >= index {
            lm := lm[me := lm[me].(grant := lm[me].grant + {index})];
          }
        }
      }
      assert lm[me].grant == old(lm[me].grant) + granted;
    }

    /** One pass of the lock_mgr loop. */
    method Pass()
      requires Valid()
      modifies this`lm, this`cached, this`pendingRequest, this`cancelRequest, this`firstCleanupDone
      ensures Valid()
      ensures !sfAccess || me !in online ==>
                lm == old(lm) && pendingRequest == old(pendingRequest) && cancelRequest == old(cancelRequest)
      ensures sfAccess && me in online ==>
                && lm == old(lm)[me := Step(old(lm), online, n, me, old(pendingRequest), old(cancelRequest))]
                && pendingRequest == NewPending(old(lm), online, n, me, old(pendingRequest), old(cancelRequest))
                && !cancelRequest && firstCleanupDone
    {
      if !sfAccess || me !in online {
        return;
      }
      WithdrawGrants();
      ProcessOrders();
      GrantOthers();
      firstCleanupDone := true;
      cached := lm;
    }
  }

  // ---------------------------------------------------------------- one shared view

  /** Every host's cache equals this one table. */
  datatype Shared = Shared(lm: seq<Lm>, pending: seq<bool>, cancel: seq<bool>)

  datatype Order = Request(h: nat) | Cancel(h: nat) | Run(h: nat)

  ghost predicate Sized(s: Shared, n: nat) {
    |s.lm| == n && |s.pending| == n && |s.cancel| == n
  }

  function Obey(s: Shared, online: HostMap, n: nat, o: Order): Shared
    requires Sized(s, n) && o.h < n
  {
    match o
    case Request(h) => s.(pending := s.pending[h := true])
    case Cancel(h) => s.(cancel := s.cancel[h := true])
    case Run(h) =>
      if h !in online then s
      else Shared(s.lm[h := Step(s.lm, online, n, h, s.pending[h], s.cancel[h])],
                  s.pending[h := NewPending(s.lm, online, n, h, s.pending[h], s.cancel[h])],
                  s.cancel[h := false])
  }

  /**
   When a pass has the request up: it was up, or an order was pending while no online host granted this one and this one
   granted no online host of higher index; and no cancellation was open. The pass uses up every order it can obey.
   */
  lemma PassRaises(s: Shared, online: HostMap, n: nat, h: nat)
    requires Sized(s, n) && h < n && h in online
    ensures var t := Obey(s, online, n, Run(h));
      var free := forall g: nat :: g < n && g in online ==>
                    h !in s.lm[g].grant && (g > h ==> g !in s.lm[h].grant);
      && (t.lm[h].request <==> !s.cancel[h] && (s.lm[h].request || (s.pending[h] && free)))
      && (t.pending[h] <==> s.pending[h] && !s.cancel[h] && !free)
      && !t.cancel[h]
  {
  }

  /**
   Whom a pass leaves with a grant of host `h`: online requesters only, all of them if the request of `h` is down, and
   those before it (itself included) if it is up; a requester behind it keeps a grant that it has.
   */
  lemma PassGrants(s: Shared, online: HostMap, n: nat, h: nat, x: nat)
    requires Sized(s, n) && h < n && h in online && x < n
    ensures var t := Obey(s, online, n, Run(h));
      x in t.lm[h].grant <==>
        x in online && s.lm[x].request && (!t.lm[h].request || x <= h || x in s.lm[h].grant)
  {
    assert x in Configured(n);
  }

  /** An order only marks its host; a later pass carries it out. */
  lemma OrdersOnlyMark(s: Shared, online: HostMap, n: nat, o: Order, x: nat)
    requires Sized(s, n) && o.h < n && x < n && !o.Run?
    ensures var t := Obey(s, online, n, o);
      && t.lm == s.lm
      && (t.pending[x] <==> s.pending[x] || o == Request(x))
      && (t.cancel[x] <==> s.cancel[x] || o == Cancel(x))
  {
  }

  /** Nobody's orders or flags but those of `h` change in a pass of `h`; a pass of an offline host changes nothing. */
  lemma PassIsLocal(s: Shared, online: HostMap, n: nat, h: nat, x: nat)
    requires Sized(s, n) && h < n && x < n && (x != h || h !in online)
    ensures var t := Obey(s, online, n, Run(h));
      t.lm[x] == s.lm[x] && t.pending[x] == s.pending[x] && t.cancel[x] == s.cancel[x]
  {
  }

  /** A host with its request up grants nobody of lower priority. */
  ghost predicate NoGrantBelow(me: nat, own: Lm, n: nat) {
    own.request ==> forall g :: me < g < n ==> g !in own.grant
  }

  ghost predicate Priority(lm: seq<Lm>, n: nat)
    requires |lm| == n
  {
    forall h :: 0 <= h < n ==> NoGrantBelow(h, lm[h], n)
  }

  lemma StepKeepsPriority(lm: seq<Lm>, online: HostMap, n: nat, me: nat, pending: bool, cancel: bool)
    requires |lm| == n && me < n && me in online && NoGrantBelow(me, lm[me], n)
    ensures NoGrantBelow(me, Step(lm, online, n, me, pending, cancel), n)
  {
  }

  /** Host `x` has its request up and is granted by every online host. */
  ghost predicate Holds(lm: seq<Lm>, online: HostMap, n: nat, x: nat)
    requires |lm| == n && x < n
  {
    lm[x].request && IsLocked(lm, online, n, x)
  }

  /** At most one requesting host is locked, and nobody of higher priority has a request up. */
  lemma AtMostOneHolder(lm: seq<Lm>, online: HostMap, n: nat, x: nat, y: nat)
    requires |lm| == n && Priority(lm, n) && x < n && y < n && Holds(lm, online, n, x) && y in online
    ensures y < x ==> !lm[y].request
    ensures Holds(lm, online, n, y) ==> x == y
  {
    assert NoGrantBelow(x, lm[x], n) && NoGrantBelow(y, lm[y], n);
  }

  /** A holder keeps the lock through every order except its own cancellation. */
  lemma HolderSurvivesOrder(s: Shared, online: HostMap, n: nat, o: Order, x: nat)
    requires Sized(s, n) && o.h < n && x < n && Priority(s.lm, n) && Holds(s.lm, online, n, x)
    requires !s.cancel[x] && o != Cancel(x)
    ensures var t := Obey(s, online, n, o);
            && Sized(t, n) && Priority(t.lm, n) && Holds(t.lm, online, n, x) && !t.cancel[x]
            && (forall y :: 0 <= y < x && y in online ==> !t.lm[y].request)
  {
    var t := Obey(s, online, n, o);
    if o.Run? && o.h in online {
      StepKeepsPriority(s.lm, online, n, o.h, s.pending[o.h], s.cancel[o.h]);
    }
    assert Priority(t.lm, n);
    forall g | 0 <= g < n && g in online
      ensures x in t.lm[g].grant
    {
      assert x in s.lm[g].grant;
    }
    forall y | 0 <= y < x && y in online
      ensures !t.lm[y].request
    {
      AtMostOneHolder(t.lm, online, n, x, y);
    }
  }

  function ObeyAll(s: Shared, online: HostMap, n: nat, orders: seq<Order>): (t: Shared)
    requires Sized(s, n) && forall i :: 0 <= i < |orders| ==> orders[i].h < n
    ensures Sized(t, n)
    decreases |orders|
  {
    if orders == [] then s else ObeyAll(Obey(s, online, n, orders[0]), online, n, orders[1..])
  }

  /**
   A pass that raises the request of `x` finds no grant to it on any online host, so no grant that it gets later is a
   leftover of an earlier request: whoever grants `x` after any orders has passed since.
   */
  lemma {:induction false} GrantsAreGivenAnew(s: Shared, online: HostMap, n: nat, orders: seq<Order>, x: nat, g: nat)
    requires Sized(s, n) && forall i :: 0 <= i < |orders| ==> orders[i].h < n
    requires x < n && g < n && x !in s.lm[g].grant && x in ObeyAll(s, online, n, orders).lm[g].grant
    ensures Run(g) in orders
    decreases |orders|
  {
    if orders != [] && orders[0] != Run(g) {
      GrantsAreGivenAnew(Obey(s, online, n, orders[0]), online, n, orders[1..], x, g);
    }
  }

  lemma LockedAfterAllHavePassed(s: Shared, online: HostMap, n: nat, x: nat, orders: seq<Order>, g: nat)
    requires Sized(s, n) && forall i :: 0 <= i < |orders| ==> orders[i].h < n
    requires x < n && x in online && !s.lm[x].request && g < n && g in online
    ensures var t := Obey(s, online, n, Run(x));
      t.lm[x].request && IsLocked(ObeyAll(t, online, n, orders).lm, online, n, x) ==> Run(g) in orders
  {
    var t := Obey(s, online, n, Run(x));
    if t.lm[x].request && IsLocked(ObeyAll(t, online, n, orders).lm, online, n, x) {
      PassRaises(s, online, n, x);
      PassGrants(s, online, n, x, x);
      GrantsAreGivenAnew(t, online, n, orders, x, g);
    }
  }

  /** Under any interleaving without its own cancellation the holder stays the only one. */
  lemma {:induction false} HolderIsStable(s: Shared, online: HostMap, n: nat, orders: seq<Order>, x: nat)
    requires Sized(s, n) && forall i :: 0 <= i < |orders| ==> orders[i].h < n && orders[i] != Cancel(x)
    requires x < n && Priority(s.lm, n) && Holds(s.lm, online, n, x) && !s.cancel[x]
    ensures var t := ObeyAll(s, online, n, orders);
            && Holds(t.lm, online, n, x)
            && forall y :: 0 <= y < n && y in online && y != x ==>
                 !Holds(t.lm, online, n, y) && (y < x ==> !t.lm[y].request)
    decreases |orders|
  {
    if orders == [] {
      forall y | 0 <= y < n && y in online && y != x
        ensures !Holds(s.lm, online, n, y) && (y < x ==> !s.lm[y].request)
      {
        AtMostOneHolder(s.lm, online, n, x, y);
      }
    } else {
      HolderSurvivesOrder(s, online, n, orders[0], x);
      HolderIsStable(Obey(s, online, n, orders[0]), online, n, orders[1..], x);
    }
  }

  // ---------------------------------------------------------------- progress

  /** A pass on any online host changes nothing: what is still pending is not ready. */
  ghost predicate Settled(s: Shared, online: HostMap, n: nat)
    requires Sized(s, n)
  {
    forall h :: 0 <= h < n && h in online ==> Obey(s, online, n, Run(h)) == s
  }

  /** Host `h` asks for the lock, be it by its flag or by an order that waits. */
  ghost predicate Wants(s: Shared, h: nat)
    requires h < |s.lm| && h < |s.pending|
  {
    s.lm[h].request || s.pending[h]
  }

  /**
   Once settled, the lock is with the lowest online host that has its request up, and with nobody only if no online
   host wants it.
   */
  lemma SettledLockIsLowestRequester(s: Shared, online: HostMap, n: nat)
    requires Sized(s, n) && Settled(s, online, n)
    ensures var x := LockNode(s.lm, online, n, 0);
            if x == -1 then forall g :: 0 <= g < n && g in online ==> !Wants(s, g)
            else x in online && s.lm[x].request && forall g :: 0 <= g < x && g in online ==> !s.lm[g].request
  {
    var x := LockNode(s.lm, online, n, 0);
    var stop := if x == -1 then n else x;
    forall h | 0 <= h < n && h in online
      ensures Done(s, online, n, h) && s.lm[h].request == NewRequest(s.lm, online, n, h, s.pending[h], s.cancel[h])
    {
      SettledAt(s, online, n, h);
    }
    if r :| 0 <= r < stop && r in online && s.lm[r].request {
      var low := LowestRequester(s, online, n, r);
      forall g | 0 <= g < n && g in online
        ensures low in s.lm[g].grant
      {
        assert low in Granted(s.lm, online, n, g, s.lm[g].request);
      }
      assert IsLocked(s.lm, online, n, low);
    } else if r :| x == -1 && 0 <= r < n && r in online && s.pending[r] {
      forall g, k | 0 <= g < n && g in online && 0 <= k < n && k in online
        ensures k !in s.lm[g].grant
      {
        assert k in Withdrawn(s.lm, online, n);
      }
      SettledAt(s, online, n, r);
      assert Ready(s.lm, online, n, r);
    }
    if x != -1 {
      assert x in s.lm[x].grant;
    }
  }

  lemma LowestRequester(s: Shared, online: HostMap, n: nat, r: nat) returns (low: nat)
    requires Sized(s, n) && r < n && r in online && s.lm[r].request
    ensures low <= r && low in online && s.lm[low].request
    ensures forall g :: 0 <= g < low && g in online ==> !s.lm[g].request
  {
    if g :| 0 <= g < r && g in online && s.lm[g].request {
      low := LowestRequester(s, online, n, g);
    } else {
      low := r;
    }
  }

  /** The grants of host `h` are what a pass that leaves its request alone makes of them. */
  ghost predicate Done(s: Shared, online: HostMap, n: nat, h: nat)
    requires Sized(s, n) && h < n
  {
    s.lm[h].grant == s.lm[h].grant - Withdrawn(s.lm, online, n) + Granted(s.lm, online, n, h, s.lm[h].request)
  }

  lemma SettledAt(s: Shared, online: HostMap, n: nat, h: nat)
    requires Sized(s, n) && h < n && h in online
    ensures Obey(s, online, n, Run(h)) == s <==>
              Done(s, online, n, h) && !s.cancel[h] && (s.pending[h] ==> !Ready(s.lm, online, n, h))
  {
    var t := Obey(s, online, n, Run(h));
    assert t.lm[h] == Step(s.lm, online, n, h, s.pending[h], s.cancel[h]);
    assert t.pending[h] == NewPending(s.lm, online, n, h, s.pending[h], s.cancel[h]);
    assert !t.cancel[h];
    if Done(s, online, n, h) && !s.cancel[h] && (s.pending[h] ==> !Ready(s.lm, online, n, h)) {
      assert t.lm == s.lm && t.pending == s.pending && t.cancel == s.cancel;
    }
  }

  /** No cancel order is open on an online host. */
  ghost predicate NoCancel(s: Shared, online: HostMap, n: nat)
    requires Sized(s, n)
  {
    forall h :: 0 <= h < n && h in online ==> !s.cancel[h]
  }

  /** The hosts with an open request order. */
  ghost function Open(s: Shared, n: nat): set<nat>
    requires Sized(s, n)
  {
    set h | h in Configured(n) && s.pending[h]
  }

  /** Only passes, and each online host has one. */
  ghost predicate Round(orders: seq<Order>, online: HostMap, n: nat) {
    && Passes(orders, n)
    && forall h :: 0 <= h < n && h in online ==> Run(h) in orders
  }

  ghost predicate Passes(orders: seq<Order>, n: nat) {
    forall i :: 0 <= i < |orders| ==> orders[i].Run? && orders[i].h < n
  }

  /** Without cancel orders, a pass raises a request only by using up a request order. */
  lemma PassUsesUpOrders(s: Shared, online: HostMap, n: nat, h: nat)
    requires Sized(s, n) && h < n && NoCancel(s, online, n)
    ensures var t := Obey(s, online, n, Run(h));
            && NoCancel(t, online, n)
            && Open(t, n) <= Open(s, n)
            && (Open(t, n) == Open(s, n) ==>
                  && (forall g :: 0 <= g < n ==> t.lm[g].request == s.lm[g].request)
                  && (h in online ==> Done(t, online, n, h))
                  && (forall g :: 0 <= g < n && Done(s, online, n, g) ==> Done(t, online, n, g)))
  {
    var t := Obey(s, online, n, Run(h));
    if h in online && Open(t, n) == Open(s, n) {
      assert h in Open(s, n) <==> h in Open(t, n);
      assert t.lm[h].request == s.lm[h].request;
      assert Withdrawn(t.lm, online, n) == Withdrawn(s.lm, online, n);
      forall g, r | 0 <= g < n
        ensures Granted(t.lm, online, n, g, r) == Granted(s.lm, online, n, g, r)
      {
      }
    }
  }

  /** A stretch of passes that uses up no request order leaves the grants done wherever it passes. */
  lemma {:induction false} StretchDoesGrants(s: Shared, online: HostMap, n: nat, orders: seq<Order>)
    requires Sized(s, n) && Passes(orders, n) && NoCancel(s, online, n)
    ensures var t := ObeyAll(s, online, n, orders);
            && NoCancel(t, online, n)
            && Open(t, n) <= Open(s, n)
            && (Open(t, n) == Open(s, n) ==>
                  forall g :: 0 <= g < n && g in online && (Done(s, online, n, g) || Run(g) in orders) ==>
                    Done(t, online, n, g))
    decreases |orders|
  {
    if orders != [] {
      PassUsesUpOrders(s, online, n, orders[0].h);
      StretchDoesGrants(Obey(s, online, n, orders[0]), online, n, orders[1..]);
    }
  }

  /** Where all grants are done, such a stretch changes nothing at all. */
  lemma {:induction false} StretchChangesNothing(s: Shared, online: HostMap, n: nat, orders: seq<Order>)
    requires Sized(s, n) && Passes(orders, n) && NoCancel(s, online, n)
    requires forall g :: 0 <= g < n && g in online ==> Done(s, online, n, g)
    requires Open(ObeyAll(s, online, n, orders), n) == Open(s, n)
    ensures ObeyAll(s, online, n, orders) == s
    ensures forall g :: 0 <= g < n && g in online && Run(g) in orders ==> Obey(s, online, n, Run(g)) == s
    decreases |orders|
  {
    if orders != [] {
      var h := orders[0].h;
      var t := Obey(s, online, n, orders[0]);
      PassUsesUpOrders(s, online, n, h);
      StretchDoesGrants(t, online, n, orders[1..]);
      if h in online {
        assert h in Open(s, n) <==> h in Open(t, n);
        SettledAt(s, online, n, h);
      }
      assert t == s;
      StretchChangesNothing(s, online, n, orders[1..]);
    }
  }

  /** Two rounds settle the lock or use up a request order. */
  lemma TwoRounds(s: Shared, online: HostMap, n: nat, first: seq<Order>, second: seq<Order>)
    requires Sized(s, n) && Round(first, online, n) && Round(second, online, n) && NoCancel(s, online, n)
    ensures var t := ObeyAll(ObeyAll(s, online, n, first), online, n, second);
            NoCancel(t, online, n) && (Settled(t, online, n) || Open(t, n) < Open(s, n))
  {
    var u := ObeyAll(s, online, n, first);
    var t := ObeyAll(u, online, n, second);
    StretchDoesGrants(s, online, n, first);
    StretchDoesGrants(u, online, n, second);
    if !(Open(t, n) < Open(s, n)) {
      StretchChangesNothing(u, online, n, second);
    }
  }

  /** The first pass of a host ends its cancel order. */
  lemma {:induction false} PassesEndCancels(s: Shared, online: HostMap, n: nat, orders: seq<Order>)
    requires Sized(s, n) && Passes(orders, n)
    ensures var t := ObeyAll(s, online, n, orders);
            forall h :: 0 <= h < n && h in online && (!s.cancel[h] || Run(h) in orders) ==> !t.cancel[h]
    decreases |orders|
  {
    if orders != [] {
      PassesEndCancels(Obey(s, online, n, orders[0]), online, n, orders[1..]);
    }
  }

  /** A settled lock stays as it is. */
  lemma {:induction false} SettledStays(s: Shared, online: HostMap, n: nat, orders: seq<Order>)
    requires Sized(s, n) && Passes(orders, n) && Settled(s, online, n)
    ensures ObeyAll(s, online, n, orders) == s
    decreases |orders|
  {
    if orders != [] {
      assert Obey(s, online, n, orders[0]) == s;
      SettledStays(s, online, n, orders[1..]);
    }
  }

  ghost predicate Rounds(rounds: seq<seq<Order>>, online: HostMap, n: nat) {
    forall i :: 0 <= i < |rounds| ==> Round(rounds[i], online, n)
  }

  ghost function AfterRounds(s: Shared, online: HostMap, n: nat, rounds: seq<seq<Order>>): (t: Shared)
    requires Sized(s, n) && Rounds(rounds, online, n)
    ensures Sized(t, n)
    decreases |rounds|
  {
    if rounds == [] then s
    else
      assert Round(rounds[0], online, n);
      AfterRounds(ObeyAll(s, online, n, rounds[0]), online, n, rounds[1..])
  }

  lemma {:induction false} RoundsSettle(s: Shared, online: HostMap, n: nat, rounds: seq<seq<Order>>)
    requires Sized(s, n) && Rounds(rounds, online, n)
    requires NoCancel(s, online, n) && (Settled(s, online, n) || |rounds| >= 2 * |Open(s, n)| + 2)
    ensures Settled(AfterRounds(s, online, n, rounds), online, n)
    decreases |rounds|
  {
    if Settled(s, online, n) {
      if rounds != [] {
        SettledStays(s, online, n, rounds[0]);
        RoundsSettle(s, online, n, rounds[1..]);
      }
    } else {
      var u := ObeyAll(s, online, n, rounds[0]);
      var t := ObeyAll(u, online, n, rounds[1]);
      TwoRounds(s, online, n, rounds[0], rounds[1]);
      if !Settled(t, online, n) {
        Smaller(Open(t, n), Open(s, n));
      }
      RoundsSettle(t, online, n, rounds[2..]);
      assert rounds[1..][1..] == rounds[2..];
    }
  }

  lemma Smaller<T>(a: set<T>, b: set<T>)
    requires a < b
    ensures |a| < |b|
  {
    assert |b| == |a| + |b - a| by {
      assert b == a + (b - a);
    }
    var x :| x in b - a;
  }

  /** From any state, without new orders, 2n + 3 rounds settle the lock. */
  lemma EveryRunSettles(s: Shared, online: HostMap, n: nat, rounds: seq<seq<Order>>)
    requires Sized(s, n) && Rounds(rounds, online, n)
    requires |rounds| >= 2 * n + 3
    ensures Settled(AfterRounds(s, online, n, rounds), online, n)
  {
    var t := ObeyAll(s, online, n, rounds[0]);
    PassesEndCancels(s, online, n, rounds[0]);
    OpenAtMost(t, n);
    RoundsSettle(t, online, n, rounds[1..]);
  }

  lemma {:induction false} ConfiguredSize(n: nat)
    ensures |Configured(n)| == n
  {
    if n > 0 {
      ConfiguredSize(n - 1);
    }
  }

  lemma OpenAtMost(s: Shared, n: nat)
    requires Sized(s, n)
    ensures |Open(s, n)| <= n
  {
    ConfiguredSize(n);
    assert Open(s, n) <= Configured(n);
    if Open(s, n) != Configured(n) {
      Smaller(Open(s, n), Configured(n));
    }
  }

  lemma {:induction false} WantStays(s: Shared, online: HostMap, n: nat, orders: seq<Order>, x: nat)
    requires Sized(s, n) && Passes(orders, n) && x < n && Wants(s, x) && !s.cancel[x]
    ensures var t := ObeyAll(s, online, n, orders);
            Wants(t, x) && !t.cancel[x]
    decreases |orders|
  {
    if orders != [] {
      WantStays(Obey(s, online, n, orders[0]), online, n, orders[1..], x);
    }
  }

  lemma {:induction false} WantStaysForRounds(s: Shared, online: HostMap, n: nat, rounds: seq<seq<Order>>, x: nat)
    requires Sized(s, n) && Rounds(rounds, online, n)
    requires x < n && Wants(s, x) && !s.cancel[x]
    ensures Wants(AfterRounds(s, online, n, rounds), x)
    decreases |rounds|
  {
    if rounds != [] {
      WantStays(s, online, n, rounds[0], x);
      WantStaysForRounds(ObeyAll(s, online, n, rounds[0]), online, n, rounds[1..], x);
    }
  }

  /**
   If an online host wants the lock and does not cancel, then after 2n + 3 rounds the lock is held, by the lowest
   online host with its request up.
   */
  lemma WantedLockIsTaken(s: Shared, online: HostMap, n: nat, rounds: seq<seq<Order>>, x: nat)
    requires Sized(s, n) && Rounds(rounds, online, n)
    requires |rounds| >= 2 * n + 3 && x < n && x in online && Wants(s, x) && !s.cancel[x]
    ensures var t := AfterRounds(s, online, n, rounds);
            var y := LockNode(t.lm, online, n, 0);
            y >= 0 && Holds(t.lm, online, n, y) && forall g :: 0 <= g < y && g in online ==> !t.lm[g].request
  {
    EveryRunSettles(s, online, n, rounds);
    WantStaysForRounds(s, online, n, rounds, x);
    SettledLockIsLowestRequester(AfterRounds(s, online, n, rounds), online, n);
  }
}
