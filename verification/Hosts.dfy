/** Host maps and the views that hosts publish about one another (include/sm.h). */
module Hosts {
  import opened MachineInts

  const MAX_HOST_NUM: nat := 64

  type HostMap = set<nat>

  /** The hosts that `_is_configured_host` accepts in a pool of `n` hosts. */
  function Configured(n: nat): (c: HostMap)
    ensures forall i: nat :: i in c <==> i < n
  {
    if n == 0 then {} else Configured(n - 1) + {n - 1}
  }

  /** RAW_DATA: the maps last received from one host. */
  datatype Raw = Raw(currentLiveset: HostMap, proposedLiveset: HostMap, hbdomain: HostMap, sfdomain: HostMap)

  /** The part of COM_DATA_HB that membership decisions read. */
  datatype HbView = HbView(hbdomain: HostMap, raw: seq<Raw>)

  /** The part of COM_DATA_SF that membership decisions read. */
  datatype SfView = SfView(sfdomain: HostMap, raw: seq<Raw>, weight: seq<U32>, excluded: HostMap, sfAccess: bool)
}
