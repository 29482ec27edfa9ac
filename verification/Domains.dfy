/**
 How a host drops peers from its heartbeat domain (update_hbdomain, daemon/heartbeat.c) and from its
 state-file domain (update_sfdomain, daemon/sm.c).
 */
module Domains {
  import opened MachineInts
  import opened Hosts

  const ONE_SEC: int := 1000

  /** `now - last < T * ONE_SEC` for a host that was heard of; the product is unsigned. */
  predicate Heard(last: int, now: int, timeout: U32) {
    last >= 0 && now - last < ToU32(timeout * ONE_SEC)
  }

  class DomainKeeper {
    const n: nat
    const me: nat
    const T1: U32
    const T2: U32
    var hbdomain: HostMap
    var sfdomain: HostMap
    var sfAccess: bool
    const sequence: array<U32>          // hbvar.sequence
    const timeLastHB: array<int>
    const timeLastSF: array<int>

    ghost predicate Valid() {
      me < n == sequence.Length == timeLastHB.Length == timeLastSF.Length
    }

    constructor (n: nat, me: nat, T1: U32, T2: U32)
      requires me < n
      ensures Valid() && this.n == n && this.me == me && this.T1 == T1 && this.T2 == T2
      ensures hbdomain == {} && sfdomain == {} && !sfAccess
      ensures fresh(sequence) && fresh(timeLastHB) && fresh(timeLastSF) && timeLastHB != timeLastSF
      ensures forall i :: 0 <= i < n ==> sequence[i] == 0 && timeLastHB[i] == timeLastSF[i] == -1
    {
      this.n, this.me, this.T1, this.T2 := n, me, T1, T2;
      hbdomain, sfdomain, sfAccess := {}, {}, false;
      sequence := new U32[n](_ => 0);
      timeLastHB := new int[n](_ => -1);
      timeLastSF := new int[n](_ => -1);
    }

    /** During a fault handling of both hosts, the peer does not have this host in its heartbeat domain. */
    predicate Deserted(i: nat, handling: bool, peerHandling: seq<bool>, raw: seq<Raw>)
      requires i < |peerHandling| && i < |raw|
    {
      peerHandling[i] && handling && me !in raw[i].hbdomain
    }

    /** update_hbdomain */
    method UpdateHbdomain(now: int, handling: bool, peerHandling: seq<bool>, raw: seq<Raw>, joinBlock: bool)
      returns (changed: bool)
      requires Valid() && |peerHandling| == |raw| == n
      modifies this`hbdomain, sequence
      ensures me in hbdomain
      ensures forall i: nat :: i < n && i != me ==>
        (i in hbdomain <==>
          && timeLastHB[i] >= 0 && now - timeLastHB[i] < ToU32(T1 * ONE_SEC)
          && if i in old(hbdomain) then !(handling && peerHandling[i] && me !in raw[i].hbdomain) else !joinBlock)
      ensures forall i: nat :: i >= n ==> (i in hbdomain <==> i in old(hbdomain))
      ensures changed <==> hbdomain != old(hbdomain) + {me}
      ensures forall i: nat :: i < n ==>
        sequence[i] == if i == me || Heard(timeLastHB[i], now, T1) then old(sequence[i]) else 0
    {
      changed := false;
      ghost var was := hbdomain;
      for index := 0 to n
        invariant me < index ==> me in hbdomain
        invariant forall i: nat :: i < index && i != me ==>
          (i in hbdomain <==>
            Heard(timeLastHB[i], now, T1) && if i in was then !Deserted(i, handling, peerHandling, raw) else !joinBlock)
        invariant forall i: nat :: i >= index ==> (i in hbdomain <==> i in was)
        invariant changed <==> exists i: nat :: i < index && i != me && (i in hbdomain <==> i !in was)
        invariant forall i: nat :: i < n ==>
          sequence[i] == if i >= index || i == me || Heard(timeLastHB[i], now, T1) then old(sequence[i]) else 0
      {
        if index == me {
          hbdomain := hbdomain + {index};
        } else if Heard(timeLastHB[index], now, T1) {
          if index in hbdomain {
            if peerHandling[index] && handling && me !in raw[index].hbdomain {
              hbdomain := hbdomain - {index};
              changed := true;
            }
          } else if !joinBlock {
            hbdomain := hbdomain + {index};
            changed := true;
          }
        } else {
          sequence[index] := 0;
          if index in hbdomain {
            hbdomain := hbdomain - {index};
            changed := true;
          }
        }
      }
    }

    /** update_sfdomain_sub: the pass without `writable` only tells whether the other one would change the domain. */
    method UpdateSfdomainSub(now: int, enableWrite: bool, joinBlock: bool, writable: bool) returns (changed: bool)
      requires Valid()
      modifies this`sfdomain, this`sfAccess
      ensures !changed <==> forall i: nat :: i < n ==>
        (i in old(sfdomain) <==>
          && timeLastSF[i] >= 0 && now - timeLastSF[i] < ToU32(T2 * ONE_SEC)
          && (i == me ==> enableWrite) && (i in old(sfdomain) || !joinBlock))
      ensures !writable ==> sfdomain == old(sfdomain) && sfAccess == old(sfAccess)
      ensures writable ==> forall i: nat :: i < n ==>
        (i in sfdomain <==>
          && timeLastSF[i] >= 0 && now - timeLastSF[i] < ToU32(T2 * ONE_SEC)
          && (i == me ==> enableWrite) && (i in old(sfdomain) || !joinBlock))
      ensures writable ==> forall i: nat :: i >= n ==> (i in sfdomain <==> i in old(sfdomain))
      ensures writable ==> sfAccess == (old(sfAccess) && (!enableWrite || Heard(timeLastSF[me], now, T2)))
    {
      changed := false;
      ghost var was := sfdomain;
      for index := 0 to n
        invariant !changed <==> forall i: nat :: i < index ==>
          (i in was <==> Heard(timeLastSF[i], now, T2) && (i == me ==> enableWrite) && (i in was || !joinBlock))
        invariant !writable ==> sfdomain == was && sfAccess == old(sfAccess)
        invariant writable ==> forall i: nat :: i < index ==>
          (i in sfdomain <==> Heard(timeLastSF[i], now, T2) && (i == me ==> enableWrite) && (i in was || !joinBlock))
        invariant forall i: nat :: i >= index ==> (i in sfdomain <==> i in was)
        invariant writable ==>
          sfAccess == (old(sfAccess) && (index <= me || !enableWrite || Heard(timeLastSF[me], now, T2)))
      {
        if index == me && !enableWrite {
          if index in sfdomain {
            if writable {
              sfdomain := sfdomain - {index};
            }
            changed := true;
          }
        } else if Heard(timeLastSF[index], now, T2) {
          if index !in sfdomain && !joinBlock {
            if writable {
              sfdomain := sfdomain + {index};
            }
            changed := true;
          }
        } else {
          if index == me && writable {
            sfAccess := false;
          }
          if index in sfdomain {
            if writable {
              sfdomain := sfdomain - {index};
            }
            changed := true;
          }
        }
      }
    }

    /** update_sfdomain: a pass under the reader lock first, and under the writer lock only if it found a change. */
    method UpdateSfdomain(now: int, enableWrite: bool, joinBlock: bool) returns (changed: bool)
      requires Valid()
      modifies this`sfdomain, this`sfAccess
      ensures forall i: nat :: i < n ==>
        (i in sfdomain <==>
          && timeLastSF[i] >= 0 && now - timeLastSF[i] < ToU32(T2 * ONE_SEC)
          && (i == me ==> enableWrite) && (i in old(sfdomain) || !joinBlock))
      ensures forall i: nat :: i >= n ==> (i in sfdomain <==> i in old(sfdomain))
      ensures changed <==> sfdomain != old(sfdomain)
      ensures sfAccess == (old(sfAccess) && (!changed || !enableWrite || Heard(timeLastSF[me], now, T2)))
    {
      ghost var was := sfdomain;
      changed := UpdateSfdomainSub(now, enableWrite, joinBlock, false);
      if changed {
        changed := UpdateSfdomainSub(now, enableWrite, joinBlock, true);
      }
    }
  }
}
