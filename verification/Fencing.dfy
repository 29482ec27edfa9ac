/**
 The wait between losing a host and acting on it: phase 4 of fault_handler (daemon/sm.c) shrinks the liveset
 only after the watchdogs of the lost hosts must have expired. Times are in milliseconds.
 */
module Fencing {
  import opened MachineInts
  import opened Hosts
  import opened Domains

  const FH_MINIMUM_SLEEP: int := 10

  /** The timeouts and intervals of the configuration, in seconds. */
  datatype Config = Config(T1: U32, T2: U32, t1: U32, t2: U32, Wh: U32, Ws: U32)

  function Max(x: int, y: int): int { if x > y then x else y }

  function Min(x: int, y: int): int { if x < y then x else y }

  function W(c: Config): U32 { Max(c.Wh, c.Ws) }

  function T(c: Config): U32 { Min(c.T1, c.T2) }

  function Interval(c: Config): U32 { Max(c.t1, c.t2) }

  /** The unsigned product `(W - T + t) * ONE_SEC`, wrapping at every operation. */
  function BaseDelay(c: Config): U32 {
    ToU32(ToU32(ToU32(W(c) - T(c)) + Interval(c)) * ONE_SEC)
  }

  function Extension(c: Config, extend: bool): U32 {
    ToU32((if extend then T(c) else 0) * ONE_SEC)
  }

  /** The argument of mssleep, when phase 3 began at `p3` and phase 4 reaches this point at `p4`. */
  function SleepTime(c: Config, p3: int, p4: int, extend: bool): int {
    Max(BaseDelay(c) - (p4 - p3) + Extension(c, extend), FH_MINIMUM_SLEEP * ONE_SEC)
  }

  lemma ProductAbsorbs(a: int, k: nat)
    ensures ToU32(ToU32(a) * k) == ToU32(a * k)
  {
    var q := a / TWO_32;
    assert a == q * TWO_32 + ToU32(a);
    assert a * k == ToU32(a) * k + (q * k) * TWO_32 by {
      assert (q * TWO_32) * k == (q * k) * TWO_32;
    }
    ModShift(ToU32(a) * k, q * k);
  }

  /** The wraps of the single operations add up to one. */
  lemma BaseDelayIsOneWrap(c: Config)
    ensures BaseDelay(c) == ToU32((W(c) - T(c) + Interval(c)) * ONE_SEC)
  {
    ToU32Absorbs(W(c) - T(c), Interval(c));
    ProductAbsorbs(W(c) - T(c) + Interval(c), ONE_SEC);
  }

  /** Earliest moment at which a host that gave its last sign of life at `sign` is known to be down. */
  function DownBy(c: Config, sign: int): int {
    sign + (W(c) + Interval(c)) * ONE_SEC
  }

  /**
   The wait is long enough for every host whose last sign of life was a timeout before phase 3, whenever
   phase 4 begins, iff the product does not overflow. (A negative sum wraps to a longer wait.)
   */
  lemma DelayIsLongEnough(c: Config)
    ensures
      (forall p3: int, p4: int :: p3 <= p4 ==> DownBy(c, p3 - T(c) * ONE_SEC) <= p4 + SleepTime(c, p3, p4, false))
      <==> (W(c) + Interval(c) - T(c)) * ONE_SEC < TWO_32
  {
    var d := (W(c) + Interval(c) - T(c)) * ONE_SEC;
    BaseDelayIsOneWrap(c);
    WrapsDown(d);
    if d >= TWO_32 {
      assert DownBy(c, 0 - T(c) * ONE_SEC) > 0 + SleepTime(c, 0, 0, false);
    }
  }

  lemma WrapsDown(d: int)
    ensures ToU32(d) >= d <==> d < TWO_32
    ensures 0 <= d < TWO_32 ==> ToU32(d) == d
  {
  }

  /** Without wrap the sum of the two products is the watchdog and the interval; every wrap takes 2^32 from it. */
  lemma TwoWraps(d: int, e: int)
    ensures ToU32(d) + ToU32(e) == d + e - (d / TWO_32 + e / TWO_32) * TWO_32
  {
  }

  /**
   With the extension, it is long enough for a host that was still visible when phase 3 began, iff the two products
   together do not lose a multiple of 2^32: the first one may wrap up as often as the second one wraps down.
   */
  lemma ExtendedDelayIsLongEnough(c: Config)
    ensures
      (forall p3: int, p4: int :: p3 <= p4 ==> DownBy(c, p3) <= p4 + SleepTime(c, p3, p4, true))
      <==> (W(c) + Interval(c) - T(c)) * ONE_SEC / TWO_32 + T(c) * ONE_SEC / TWO_32 <= 0
  {
    var d, e := (W(c) + Interval(c) - T(c)) * ONE_SEC, T(c) * ONE_SEC;
    BaseDelayIsOneWrap(c);
    assert d + e == (W(c) + Interval(c)) * ONE_SEC;
    TwoWraps(d, e);
    if d / TWO_32 + e / TWO_32 > 0 {
      Floors(d, e);
      assert DownBy(c, 0) > 0 + SleepTime(c, 0, 0, true);
    }
  }

  lemma Floors(d: int, e: int)
    ensures d / TWO_32 + e / TWO_32 <= (d + e) / TWO_32
  {
  }

  /** In particular, it is for all timeouts if watchdog and interval do not overflow by themselves. */
  lemma ExtendedDelaySuffices(c: Config, p3: int, p4: int)
    requires (W(c) + Interval(c)) * ONE_SEC < TWO_32 && p3 <= p4
    ensures DownBy(c, p3) <= p4 + SleepTime(c, p3, p4, true)
  {
    Floors((W(c) + Interval(c) - T(c)) * ONE_SEC, T(c) * ONE_SEC);
    ExtendedDelayIsLongEnough(c);
  }

  /**
   When an unextended wait is long enough for one host, whenever phase 4 begins: iff its last sign of life is as old at
   the beginning of phase 3 as the wait falls short of watchdog and interval.
   */
  lemma UnextendedDelayBound(c: Config, sign: int, p3: int)
    ensures
      (forall p4: int :: p3 <= p4 ==> DownBy(c, sign) <= p4 + SleepTime(c, p3, p4, false))
      <==> sign <= p3 + Max(ToU32((W(c) - T(c) + Interval(c)) * ONE_SEC), FH_MINIMUM_SLEEP * ONE_SEC)
                   - (W(c) + Interval(c)) * ONE_SEC
  {
    BaseDelayIsOneWrap(c);
    assert p3 <= p3 && p3 + SleepTime(c, p3, p3, false) == p3 + Max(BaseDelay(c), FH_MINIMUM_SLEEP * ONE_SEC);
  }

  /** What phase 4 works on: the clock, the livesets and the fencing mode. */
  class FencingPhase {
    var clock: int
    var current: HostMap
    var proposed: HostMap
    var armed: bool

    constructor (clock: int, current: HostMap, proposed: HostMap, armed: bool)
      ensures this.clock == clock && this.current == current && this.proposed == proposed && this.armed == armed
    {
      this.clock, this.current, this.proposed, this.armed := clock, current, proposed, armed;
    }

    /** The body of phase 4; the sleep may last longer than asked for, by `late`. */
    method Run(c: Config, p3: int, extend: bool, late: nat)
      requires p3 <= clock
      modifies this`clock, this`current
      ensures current == if armed then old(current) * proposed else old(current)
      ensures clock == old(clock) + if old(current) <= proposed then 0 else SleepTime(c, p3, old(clock), extend) + late
      ensures current != old(current) ==> clock >= p3 + BaseDelay(c) + Extension(c, extend)
    {
      if !(current <= proposed) {
        clock := clock + SleepTime(c, p3, clock, extend) + late;
        if armed {
          current := current * proposed;
        }
      } else {
        assert current == current * proposed;
      }
    }
  }

  /** No product of a configured number of seconds overflows. */
  predicate NoOverflow(c: Config) {
    (W(c) + Interval(c)) * ONE_SEC < TWO_32 && c.T1 * ONE_SEC < TWO_32 && c.T2 * ONE_SEC < TWO_32
  }

  /**
   A host that is dropped from a domain by its timeout at `drop`, before phase 3, and then removed from the
   liveset, is down by then: a watchdog that it refreshed no later than one interval after its last sign
   of life, be it that of the heartbeat or that of the state file, has expired.
   */
  lemma DroppedHostHasFenced(c: Config, sign: int, timeout: U32, drop: int, refreshed: int, interval: U32,
                             p3: int, p4: int, extend: bool, late: nat)
    requires NoOverflow(c) && (timeout == c.T1 || timeout == c.T2) && (interval == c.t1 || interval == c.t2)
    requires sign >= 0 && !Heard(sign, drop, timeout)
    requires drop <= p3 <= p4 && refreshed <= sign + interval * ONE_SEC
    ensures var update := p4 + SleepTime(c, p3, p4, extend) + late;
      refreshed + c.Wh * ONE_SEC <= update && refreshed + c.Ws * ONE_SEC <= update
  {
    DelayIsLongEnough(c);
    assert DownBy(c, p3 - T(c) * ONE_SEC) <= p4 + SleepTime(c, p3, p4, false);
    assert SleepTime(c, p3, p4, false) <= SleepTime(c, p3, p4, extend);
    assert sign <= drop - timeout * ONE_SEC;
  }

  /** So has a host that was still in a domain when phase 3 began and that phase 3 removed itself. */
  lemma RemovedHostHasFenced(c: Config, refreshed: int, interval: U32, p3: int, p4: int, late: nat)
    requires (W(c) + Interval(c)) * ONE_SEC < TWO_32 && (interval == c.t1 || interval == c.t2)
    requires p3 <= p4 && refreshed <= p3 + interval * ONE_SEC
    ensures var update := p4 + SleepTime(c, p3, p4, true) + late;
      refreshed + c.Wh * ONE_SEC <= update && refreshed + c.Ws * ONE_SEC <= update
  {
    ExtendedDelaySuffices(c, p3, p4);
  }

  /**
   The wait is no longer than that: it ends when the last of the watchdogs expires that a host refreshed one interval
   after it was last heard of, the shorter timeout before phase 3 (or at phase 3, if extended), or ten seconds after
   phase 4 begins.
   */
  lemma WaitIsTight(c: Config, p3: int, p4: int, extend: bool)
    requires NoOverflow(c) && p3 <= p4 && T(c) <= W(c) + Interval(c)
    ensures var update := p4 + SleepTime(c, p3, p4, extend);
      || update == p4 + 10 * ONE_SEC
      || exists timeout: U32, interval: U32, watchdog: U32 :: Among(timeout, c.T1, c.T2) && Among(interval, c.t1, c.t2)
           && Among(watchdog, c.Wh, c.Ws)
           && update == p3 - (if extend then 0 else timeout * ONE_SEC) + interval * ONE_SEC + watchdog * ONE_SEC
  {
    BaseDelayIsOneWrap(c);
    assert Among(T(c), c.T1, c.T2) && Among(Interval(c), c.t1, c.t2) && Among(W(c), c.Wh, c.Ws);
  }

  predicate Among(x: U32, a: U32, b: U32) {
    x == a || x == b
  }

  /** With the default timeouts nothing overflows. */
  lemma DefaultsAreSafe()
    ensures var c := Config(30, 30, 4, 4, 30, 45); NoOverflow(c) && T(c) <= W(c) + Interval(c)
  {
  }
}
