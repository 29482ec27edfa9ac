/** The agreement check, the largest-partition vote and the two survival rules (daemon/sm.c). */
module Survival {
  import opened Hosts
  import opened Scores
  import opened Merge

  ghost predicate WellSized(hb: HbView, sf: SfView, n: nat) {
    |hb.raw| == n && |sf.raw| == n && n <= |sf.weight| && n <= MAX_HOST_NUM
  }

  // ---------------------------------------------------------------- agreement

  /** What the comparison loop demands of one other live host `i`. */
  predicate AgreesWith(hb: HbView, sf: SfView, live: HostMap, n: nat, i: nat)
    requires |hb.raw| == n && |sf.raw| == n && i < n
  {
    var conf := Configured(n);
    var myHb, mySf := hb.hbdomain * conf * live, sf.sfdomain * conf * live;
    && (i in myHb ==> myHb == hb.raw[i].hbdomain * conf * live && mySf == hb.raw[i].sfdomain * conf * live)
    && (i in mySf ==> mySf == sf.raw[i].sfdomain * conf * live && myHb == sf.raw[i].hbdomain * conf * live)
  }

  predicate ViewsAgree(hb: HbView, sf: SfView, live: HostMap, n: nat, me: nat)
    requires |hb.raw| == n && |sf.raw| == n
  {
    forall i :: 0 <= i < n && i != me && i in live ==> AgreesWith(hb, sf, live, n, i)
  }

  // ---------------------------------------------------------------- merge of stable views

  /** The raw rows cut down to the live hosts, the local row taken from the local domains. */
  function CutRaw(raw: seq<Raw>, live: HostMap, me: nat, myHb: HostMap, mySf: HostMap): (r: seq<Raw>)
    ensures |r| == |raw|
  {
    seq(|raw|, i requires 0 <= i < |raw| =>
      if i == me then raw[i].(hbdomain := myHb * live, sfdomain := mySf * live)
      else raw[i].(hbdomain := raw[i].hbdomain * live, sfdomain := raw[i].sfdomain * live))
  }

  /** Hosts whose published state-file domain is empty on either channel. */
  function LostStateFile(hbRaw: seq<Raw>, sfRaw: seq<Raw>, n: nat, me: nat): HostMap
    requires |hbRaw| == n && |sfRaw| == n
  {
    set i | i in Configured(n) && i != me &&
            (sfRaw[i].sfdomain * Configured(n) == {} || hbRaw[i].sfdomain * Configured(n) == {})
  }

  /** The local row after the hosts of `lost` have left its state-file domain. */
  function WithoutLost(raw: seq<Raw>, me: nat, lost: HostMap): (r: seq<Raw>)
    requires me < |raw|
    ensures |r| == |raw|
  {
    raw[me := raw[me].(sfdomain := raw[me].sfdomain - lost)]
  }

  /** The rows the merge starts from: hosts outside `sfdomain` are struck out first. */
  function StartRows(sfRaw: seq<Raw>, sfdomain: HostMap, n: nat): (s: Rows)
    requires |sfRaw| == n
    ensures |s.row| == n && s.removed == Configured(n) - sfdomain
    ensures (forall i :: 0 <= i < n ==> sfRaw[i].hbdomain <= Configured(n)) ==> WellFormed(s, n)
  {
    var out := Configured(n) - sfdomain;
    Rows(seq(n, i requires 0 <= i < n => if i in out then {} else sfRaw[i].hbdomain - out), out)
  }

  function WithHbRows(raw: seq<Raw>, row: seq<HostMap>): (r: seq<Raw>)
    requires |raw| == |row|
    ensures |r| == |raw|
  {
    seq(|raw|, i requires 0 <= i < |raw| => raw[i].(hbdomain := row[i]))
  }

  /** The stable views after the consistency wait has timed out. */
  function MergedViews(hb: HbView, sf: SfView, live: HostMap, n: nat, me: nat, myHb: HostMap, mySf: HostMap)
    : (v: (HbView, SfView))
    requires |hb.raw| == n && |sf.raw| == n && n <= |sf.weight| && n <= MAX_HOST_NUM && me < n
    ensures WellSized(v.0, v.1, n)
  {
    var hbRaw := CutRaw(hb.raw, live, me, myHb, mySf);
    var sfRaw := CutRaw(sf.raw, live, me, myHb, mySf);
    var lost := LostStateFile(hbRaw, sfRaw, n, me);
    var sfdomain := mySf - lost;
    var merged := Reduce(StartRows(sfRaw, sfdomain, n), sf.weight, n);
    (HbView(merged.row[me], WithoutLost(hbRaw, me, lost)),
     sf.(sfdomain := sfdomain, raw := WithHbRows(WithoutLost(sfRaw, me, lost), merged.row)))
  }

  // ---------------------------------------------------------------- vote

  /** partition_size[i] as host `me` computes it. */
  function SizeOf(hb: HbView, sf: SfView, n: nat, me: nat, i: nat): int
    requires |sf.raw| == n && n <= |sf.weight| && i < n
  {
    if i !in sf.sfdomain then 0
    else if i == me then PartitionSize(sf.sfdomain, hb.hbdomain, sf.weight, n)
    else PartitionSize(sf.raw[i].sfdomain, sf.raw[i].hbdomain, sf.weight, n)
  }

  /** winner_index after the first `k` hosts: the lowest index with the greatest positive size. */
  function Leader(hb: HbView, sf: SfView, n: nat, me: nat, k: nat): (l: int)
    requires |sf.raw| == n && n <= |sf.weight| && k <= n
    ensures -1 <= l < k
    ensures l == -1 <==> forall i :: 0 <= i < k ==> SizeOf(hb, sf, n, me, i) <= 0
    ensures l >= 0 ==> SizeOf(hb, sf, n, me, l) > 0
    ensures l >= 0 ==> forall i :: 0 <= i < k ==> SizeOf(hb, sf, n, me, i) <= SizeOf(hb, sf, n, me, l)
    ensures l >= 0 ==> forall i :: 0 <= i < l ==> SizeOf(hb, sf, n, me, i) < SizeOf(hb, sf, n, me, l)
  {
    if k == 0 then -1
    else
      var l := Leader(hb, sf, n, me, k - 1);
      if SizeOf(hb, sf, n, me, k - 1) > (if l < 0 then 0 else SizeOf(hb, sf, n, me, l)) then k - 1 else l
  }

  /** am_I_in_largest_partition. */
  predicate InLargest(hb: HbView, sf: SfView, n: nat, me: nat)
    requires |sf.raw| == n && n <= |sf.weight|
  {
    var l := Leader(hb, sf, n, me, n);
    && l >= 0
    && (l == me || (me in sf.raw[l].sfdomain && me in sf.raw[l].hbdomain && l in sf.sfdomain && l in hb.hbdomain))
  }

  // ---------------------------------------------------------------- survival rules

  predicate Rule1(hb: HbView, sf: SfView, live: HostMap, n: nat, me: nat)
    requires |sf.raw| == n && n <= |sf.weight|
  {
    var hb', sf' := hb.(hbdomain := hb.hbdomain * Configured(n)), sf.(sfdomain := sf.sfdomain * Configured(n));
    var hbd, sfd := hb'.hbdomain * live, sf'.sfdomain * live;
    (sfd <= hbd && sfd != {}) || InLargest(hb', sf', n, me)
  }

  predicate HasAccess(hb: HbView, sf: SfView, me: nat, i: nat)
    requires i < |hb.raw|
  {
    if i == me then sf.sfAccess else i in hb.raw[i].sfdomain
  }

  predicate Rule2(hb: HbView, sf: SfView, live: HostMap, n: nat, me: nat)
    requires |hb.raw| == n
  {
    forall i :: 0 <= i < n ==>
      if i in hb.hbdomain * live then !HasAccess(hb, sf, me, i) else i in sf.excluded
  }

  /** The answer of test_Survival_Rule. */
  predicate Survives(hb: HbView, sf: SfView, live: HostMap, n: nat, me: nat)
    requires |hb.raw| == n && |sf.raw| == n && n <= |sf.weight|
  {
    Rule1(hb, sf, live, n, me) || Rule2(hb, sf, live, n, me)
  }

  /** The SR2 flag after the test: a Rule-1 winner leaves it alone. */
  predicate NewSR2(hb: HbView, sf: SfView, live: HostMap, n: nat, me: nat, sr2: bool)
    requires |hb.raw| == n && |sf.raw| == n && n <= |sf.weight|
  {
    if Rule1(hb, sf, live, n, me) then sr2 else Rule2(hb, sf, live, n, me)
  }

  /** The hosts that a survivor drops from its proposal. */
  function Dropped(hb: HbView, sf: SfView, live: HostMap, n: nat, sr2: bool): HostMap {
    set i | i in Configured(n) && (i !in hb.hbdomain * live || !(sr2 || i in sf.sfdomain * live))
  }

  /** The liveset after FH4: only an armed host whose proposal lost a live host changes it. */
  function Committed(current: HostMap, proposed: HostMap, armed: bool): HostMap {
    if current <= proposed || !armed then current else current * proposed
  }
}
