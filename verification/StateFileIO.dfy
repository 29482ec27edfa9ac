/**
 The sections of the state-file (lib/statefileio.c, include/statefile.h), as 32-bit words: a global section
 and one section per host, each in a slot of 4096 bytes, read and written in units of 512 bytes.
 */
module StateFileIO {
  import opened MachineInts
  import opened Hosts

  const SF_VERSION: U32 := 2
  const SLOT_BYTES: nat := 4096               // LENGTH_GLOBAL, LENGTH_HOST_SPECIFIC
  const SLOT: nat := 1024                     // words of a slot
  const IOUNIT: nat := 512
  const FILE_WORDS: nat := 65 * SLOT

  // Word positions that both kinds of section share.
  const SIG: nat := 0
  const SIG_INV: nat := 1
  const CHECKSUM: nat := 2
  const BODY: nat := 3                        // version or sequence: the first word under the checksum

  // Word positions of the global section.
  const VERSION: nat := 3
  const GEN_UUID: nat := 7
  const UUID_WORDS: nat := 8

  /** A kind of section: its signature, its end marker, and the position of the end marker. */
  datatype Kind = Kind(sig: U32, endMarker: U32, end: nat)

  const GLOBAL := Kind(0x6c6f_6f70, 0x7064_6e65, 25)        // 'loop', 'pdne'
  const HOST := Kind(0x7473_6f68, 0x6864_6e65, 157)         // 'tsoh', 'hdne'

  predicate Legal(k: Kind) {
    BODY < k.end < SLOT
  }

  /** sf_create_inverted_sig: (~sig) >> 3 on a positive int, stored in an unsigned word. */
  function InvertedSig(k: Kind): U32 {
    var sig: int := k.sig;
    ToU32((-sig - 1) / 8)
  }

  function RoundUp(n: nat, unit: nat): nat
    requires unit > 0
  {
    (n + unit - 1) / unit * unit
  }

  /** The number of words that one access transfers. */
  function IoWords(k: Kind): (n: nat)
    requires Legal(k)
    ensures k.end < n <= SLOT && n % 128 == 0 && n - 128 <= k.end
  {
    RoundUp(4 * (k.end + 1), IOUNIT) / 4
  }

  function Sum(s: seq<U32>): nat {
    if s == [] then 0 else Sum(s[..|s| - 1]) + s[|s| - 1]
  }

  datatype Status = Success | Corruption | VersionMismatch | GenUuid

  /** The constants and the checksum that a write sets. `pre` are the words it sets under the checksum. */
  function Sealed(k: Kind, pre: seq<U32>, b: seq<U32>): (r: seq<U32>)
    requires Legal(k) && |b| == SLOT && BODY + |pre| <= k.end
    ensures |r| == SLOT
  {
    var body := pre + b[BODY + |pre|..k.end];
    [k.sig, InvertedSig(k), ToU32(Sum(body))] + body + [k.endMarker] + b[k.end + 1..]
  }

  predicate SectionOk(k: Kind, b: seq<U32>)
    requires Legal(k) && |b| > k.end
  {
    b[SIG] == k.sig && b[SIG_INV] == InvertedSig(k) && b[CHECKSUM] == ToU32(Sum(b[BODY..k.end]))
  }

  const GLOBAL_CONSTANTS: seq<U32> := [SF_VERSION, 4096, 4096, 64]

  function GlobalStatus(b: seq<U32>, sameUuid: seq<U32> -> bool): Status
    requires |b| > GLOBAL.end
  {
    if !SectionOk(GLOBAL, b) then Corruption
    else if b[VERSION] != SF_VERSION then VersionMismatch
    else if !sameUuid(b[GEN_UUID..GEN_UUID + UUID_WORDS]) then GenUuid
    else Success
  }

  function HostStatus(b: seq<U32>): Status
    requires |b| > HOST.end
  {
    if SectionOk(HOST, b) then Success else Corruption
  }

  function Range(s: seq<U32>, off: nat, len: nat): (r: seq<U32>)
    requires off + len <= |s|
    ensures |r| == len && forall q :: 0 <= q < len ==> r[q] == s[off + q]
  {
    s[off..off + len]
  }

  /** The words of slot `i`: slot 0 is the global section, slot `i + 1` that of host `i`. */
  function SlotOf(file: seq<U32>, i: nat): (s: seq<U32>)
    requires |file| == FILE_WORDS && i <= MAX_HOST_NUM
    ensures |s| == SLOT
  {
    Range(file, i * SLOT, SLOT)
  }

  // ---------------------------------------------------------------- the functions of the library

  /** sf_checksum over the words `from..to`. */
  method Checksum(b: array<U32>, from: nat, to: nat) returns (sum: U32)
    requires from <= to <= b.Length
    ensures sum == ToU32(Sum(b[from..to]))
  {
    sum := 0;
    for p := from to to
      invariant sum == ToU32(Sum(b[from..p]))
    {
      assert b[from..p + 1][..p - from] == b[from..p];
      ToU32Absorbs(Sum(b[from..p]), b[p]);
      sum := ToU32(sum + b[p]);
    }
  }

  /** `after` is `before` with `data` from position `off` on. */
  ghost predicate Stored(before: seq<U32>, after: seq<U32>, data: seq<U32>, off: nat) {
    && |after| == |before|
    && forall q :: 0 <= q < |after| ==>
         after[q] == if off <= q < off + |data| then data[q - off] else before[q]
  }

  lemma OwnRange(before: seq<U32>, after: seq<U32>, data: seq<U32>, off: nat, len: nat)
    requires Stored(before, after, data, off) && |data| <= len && off + len <= |before|
    ensures Range(after, off, len) == data + Range(before, off, len)[|data|..]
  {
  }

  lemma OtherRange(before: seq<U32>, after: seq<U32>, data: seq<U32>, off: nat, other: nat, len: nat)
    requires Stored(before, after, data, off) && |data| <= len
    requires other + len <= off || off + len <= other
    requires other + len <= |before|
    ensures Range(after, other, len) == Range(before, other, len)
  {
  }

  /** A write into one slot, no longer than a slot, changes that slot only. */
  lemma StoredInSlot(before: seq<U32>, after: seq<U32>, data: seq<U32>, i: nat)
    requires |before| == FILE_WORDS && |data| <= SLOT && i <= MAX_HOST_NUM
    requires Stored(before, after, data, i * SLOT)
    ensures SlotOf(after, i) == data + SlotOf(before, i)[|data|..]
    ensures forall j: nat :: j <= MAX_HOST_NUM && j != i ==> SlotOf(after, j) == SlotOf(before, j)
  {
    OwnRange(before, after, data, i * SLOT, SLOT);
    forall j: nat | j <= MAX_HOST_NUM && j != i
      ensures SlotOf(after, j) == SlotOf(before, j)
    {
      OtherRange(before, after, data, i * SLOT, j * SLOT, SLOT);
    }
  }

  /** The file on the shared disk, and the accesses to it. */
  class Device {
    const disk: array<U32>

    ghost predicate Valid() {
      disk.Length == FILE_WORDS
    }

    constructor ()
      ensures Valid() && fresh(disk)
    {
      disk := new U32[FILE_WORDS](_ => 0);
    }

    /** sf_write of the first `n` words of a buffer to a slot. */
    method Write(b: array<U32>, n: nat, i: nat)
      requires Valid() && b != disk && n <= SLOT <= b.Length && i <= MAX_HOST_NUM
      modifies disk
      ensures Stored(old(disk[..]), disk[..], b[..n], i * SLOT)
    {
      var off := i * SLOT;
      for p := 0 to n
        invariant forall q :: 0 <= q < disk.Length ==>
          disk[q] == if off <= q < off + p then b[q - off] else old(disk[q])
      {
        disk[off + p] := b[p];
      }
    }

    /** sf_read of the first `n` words of a slot into a buffer. */
    method Read(b: array<U32>, n: nat, i: nat)
      requires Valid() && b != disk && n <= SLOT == b.Length && i <= MAX_HOST_NUM
      modifies b
      ensures b[..] == SlotOf(disk[..], i)[..n] + old(b[n..])
    {
      var off := i * SLOT;
      for p := 0 to n
        invariant forall q :: 0 <= q < SLOT ==> b[q] == if q < p then disk[off + q] else old(b[q])
      {
        b[p] := disk[off + p];
      }
    }

    /** The last assignment of a write: the checksum over what the buffer now holds. */
    method Seal(b: array<U32>, k: Kind, pre: seq<U32>, ghost was: seq<U32>)
      requires Legal(k) && b.Length == |was| == SLOT && BODY + |pre| <= k.end
      requires b[SIG] == k.sig && b[SIG_INV] == InvertedSig(k) && b[k.end] == k.endMarker
      requires forall i :: BODY <= i < SLOT && i != k.end ==> b[i] == if i < BODY + |pre| then pre[i - BODY] else was[i]
      modifies b
      ensures b[..] == Sealed(k, pre, was)
    {
      var sum := Checksum(b, BODY, k.end);
      assert b[BODY..k.end] == pre + was[BODY + |pre|..k.end];
      b[CHECKSUM] := sum;
    }

    /** sf_writeglobal */
    method WriteGlobal(b: array<U32>)
      requires Valid() && b != disk && b.Length == SLOT
      modifies b, disk
      ensures b[..] == Sealed(GLOBAL, GLOBAL_CONSTANTS, old(b[..]))
      ensures SlotOf(disk[..], 0) == b[..IoWords(GLOBAL)] + old(SlotOf(disk[..], 0))[IoWords(GLOBAL)..]
      ensures forall j: nat :: 1 <= j <= MAX_HOST_NUM ==> SlotOf(disk[..], j) == old(SlotOf(disk[..], j))
    {
      b[SIG] := GLOBAL.sig;
      b[SIG_INV] := InvertedSig(GLOBAL);
      b[VERSION] := SF_VERSION;
      b[4] := SLOT_BYTES;
      b[5] := SLOT_BYTES;
      b[6] := MAX_HOST_NUM;
      b[GLOBAL.end] := GLOBAL.endMarker;
      Seal(b, GLOBAL, GLOBAL_CONSTANTS, old(b[..]));
      Write(b, IoWords(GLOBAL), 0);
      StoredInSlot(old(disk[..]), disk[..], b[..IoWords(GLOBAL)], 0);
    }

    /** sf_writehostspecific */
    method WriteHost(b: array<U32>, host: nat)
      requires Valid() && b != disk && b.Length == SLOT && host < MAX_HOST_NUM
      modifies b, disk
      ensures b[..] == Sealed(HOST, [], old(b[..]))
      ensures SlotOf(disk[..], host + 1) == b[..IoWords(HOST)] + old(SlotOf(disk[..], host + 1))[IoWords(HOST)..]
      ensures forall j: nat :: j <= MAX_HOST_NUM && j != host + 1 ==> SlotOf(disk[..], j) == old(SlotOf(disk[..], j))
    {
      b[SIG] := HOST.sig;
      b[SIG_INV] := InvertedSig(HOST);
      b[HOST.end] := HOST.endMarker;
      Seal(b, HOST, [], old(b[..]));
      Write(b, IoWords(HOST), host + 1);
      StoredInSlot(old(disk[..]), disk[..], b[..IoWords(HOST)], host + 1);
    }

    method CheckSection(k: Kind, b: array<U32>) returns (ok: bool)
      requires Legal(k) && b.Length == SLOT
      ensures ok == SectionOk(k, b[..])
    {
      if b[SIG] != k.sig || b[SIG_INV] != InvertedSig(k) {
        return false;
      }
      assert b[BODY..k.end] == b[..][BODY..k.end];
      var sum := Checksum(b, BODY, k.end);
      return sum == b[CHECKSUM];
    }

    /** sf_readglobal; the comparison of the generation UUID is a parameter. */
    method ReadGlobal(b: array<U32>, sameUuid: seq<U32> -> bool) returns (status: Status)
      requires Valid() && b != disk && b.Length == SLOT
      modifies b
      ensures b[..] == SlotOf(disk[..], 0)[..IoWords(GLOBAL)] + old(b[IoWords(GLOBAL)..])
      ensures status == GlobalStatus(SlotOf(disk[..], 0), sameUuid)
    {
      Read(b, IoWords(GLOBAL), 0);
      var ok := CheckSection(GLOBAL, b);
      SamePrefix(GLOBAL, b[..], SlotOf(disk[..], 0));
      if !ok {
        return Corruption;
      }
      if b[VERSION] != SF_VERSION {
        return VersionMismatch;
      }
      assert b[GEN_UUID..GEN_UUID + UUID_WORDS] == SlotOf(disk[..], 0)[GEN_UUID..GEN_UUID + UUID_WORDS];
      if !sameUuid(b[GEN_UUID..GEN_UUID + UUID_WORDS]) {
        return GenUuid;
      }
      return Success;
    }

    /** sf_readhostspecific */
    method ReadHost(b: array<U32>, host: nat) returns (status: Status)
      requires Valid() && b != disk && b.Length == SLOT && host < MAX_HOST_NUM
      modifies b
      ensures b[..] == SlotOf(disk[..], host + 1)[..IoWords(HOST)] + old(b[IoWords(HOST)..])
      ensures status == HostStatus(SlotOf(disk[..], host + 1))
    {
      Read(b, IoWords(HOST), host + 1);
      var ok := CheckSection(HOST, b);
      SamePrefix(HOST, b[..], SlotOf(disk[..], host + 1));
      return if ok then Success else Corruption;
    }
  }

  lemma SamePrefix(k: Kind, a: seq<U32>, b: seq<U32>)
    requires Legal(k) && |a| == |b| == SLOT && a[..IoWords(k)] == b[..IoWords(k)]
    ensures SectionOk(k, a) == SectionOk(k, b)
  {
    assert forall j :: 0 <= j <= k.end ==> a[j] == a[..IoWords(k)][j];
    assert a[BODY..k.end] == b[BODY..k.end];
  }

  // ---------------------------------------------------------------- what the checksum detects

  lemma {:induction false} SumOfCat(a: seq<U32>, b: seq<U32>)
    ensures Sum(a + b) == Sum(a) + Sum(b)
    decreases |b|
  {
    if b == [] {
      assert a + b == a;
    } else {
      assert (a + b)[..|a + b| - 1] == a + b[..|b| - 1];
      SumOfCat(a, b[..|b| - 1]);
    }
  }

  lemma {:induction false} SumOfReplaced(s: seq<U32>, i: nat, v: U32)
    requires i < |s|
    ensures Sum(s[i := v]) == Sum(s) - s[i] + v
    decreases |s|
  {
    var n := |s| - 1;
    if i == n {
      assert s[i := v][..n] == s[..n];
    } else {
      assert s[i := v][..n] == s[..n][i := v];
      SumOfReplaced(s[..n], i, v);
    }
  }

  /** Two sums give the same 32-bit word iff they differ by a multiple of 2^32. */
  lemma SameWord(a: int, b: int)
    ensures ToU32(a) == ToU32(b) <==> (a - b) % TWO_32 == 0
  {
    var p, q := a / TWO_32, b / TWO_32;
    if ToU32(a) == ToU32(b) {
      assert a - b == (p - q) * TWO_32;
      ModShift(0, p - q);
    } else {
      var r := a % TWO_32 - b % TWO_32;
      assert a - b == r + (p - q) * TWO_32;
      ModShift(r, p - q);
    }
  }

  /** A sealed section is valid, and holds what was in the buffer. */
  lemma SealedIsOk(k: Kind, pre: seq<U32>, b: seq<U32>)
    requires Legal(k) && |b| == SLOT && BODY + |pre| <= k.end
    ensures SectionOk(k, Sealed(k, pre, b)) && Sealed(k, pre, b)[k.end] == k.endMarker
    ensures forall i :: BODY + |pre| <= i < SLOT && i != k.end ==> Sealed(k, pre, b)[i] == b[i]
    ensures forall i :: 0 <= i < |pre| ==> Sealed(k, pre, b)[BODY + i] == pre[i]
  {
    assert Sealed(k, pre, b)[BODY..k.end] == pre + b[BODY + |pre|..k.end];
  }

  /** The inverted signatures on disk; no section is valid as one of the other kind. */
  lemma KindsAreDistinct(b: seq<U32>)
    requires |b| == SLOT && SectionOk(GLOBAL, b)
    ensures b[SIG] == 0x6c6f_6f70 && b[SIG_INV] == 0xf272_1211 && InvertedSig(HOST) == 0xf171_9212
    ensures !SectionOk(HOST, b)
  {
  }

  /** A global section that was written reads back without an error exactly for the daemons of its own generation. */
  lemma SealedGlobalStatus(b: seq<U32>, sameUuid: seq<U32> -> bool)
    requires |b| == SLOT
    ensures GlobalStatus(Sealed(GLOBAL, GLOBAL_CONSTANTS, b), sameUuid) ==
            if sameUuid(b[GEN_UUID..GEN_UUID + UUID_WORDS]) then Success else GenUuid
  {
    var r := Sealed(GLOBAL, GLOBAL_CONSTANTS, b);
    SealedIsOk(GLOBAL, GLOBAL_CONSTANTS, b);
    assert r[VERSION] == r[BODY + 0] == SF_VERSION;
    assert r[GEN_UUID..GEN_UUID + UUID_WORDS] == b[GEN_UUID..GEN_UUID + UUID_WORDS];
  }

  /** One that a daemon of another version has written is a version mismatch, even if the generation differs, too. */
  lemma OtherVersionStatus(b: seq<U32>, version: U32, sameUuid: seq<U32> -> bool)
    requires |b| == SLOT && version != 2
    ensures GlobalStatus(Sealed(GLOBAL, [version, 4096, 4096, 64], b), sameUuid) == VersionMismatch
  {
    var pre: seq<U32> := [version, 4096, 4096, 64];
    SealedIsOk(GLOBAL, pre, b);
    assert Sealed(GLOBAL, pre, b)[VERSION] == Sealed(GLOBAL, pre, b)[BODY + 0] == version;
  }

  /** A change of one word of a valid section goes unnoticed iff that word lies at or behind the end marker. */
  lemma OneWordChange(k: Kind, b: seq<U32>, i: nat, v: U32)
    requires Legal(k) && |b| == SLOT && SectionOk(k, b) && i < SLOT && v != b[i]
    ensures SectionOk(k, b[i := v]) <==> i >= k.end
  {
    var c := b[i := v];
    var body := b[BODY..k.end];
    if BODY <= i < k.end {
      assert c[BODY..k.end] == body[i - BODY := v];
      SumOfReplaced(body, i - BODY, v);
      SameWord(Sum(body) - b[i] + v, Sum(body));
    } else {
      assert c[BODY..k.end] == body;
    }
  }

  /** So a read of the global section reports the change as corruption, before it looks at version or UUID. */
  lemma OneWordChangeOfGlobal(b: seq<U32>, i: nat, v: U32, sameUuid: seq<U32> -> bool)
    requires |b| == SLOT && SectionOk(GLOBAL, b) && i < SLOT && v != b[i]
    ensures GlobalStatus(b[i := v], sameUuid) ==
            if i < GLOBAL.end then Corruption else GlobalStatus(b, sameUuid)
  {
    OneWordChange(GLOBAL, b, i, v);
    if i >= GLOBAL.end {
      assert b[i := v][GEN_UUID..GEN_UUID + UUID_WORDS] == b[GEN_UUID..GEN_UUID + UUID_WORDS];
    }
  }

  /**
   A write that was cut off after `n` words, between two valid sections of the same kind: with the new
   checksum in place, the section is accepted iff the part that is missing had the same sum as the part that
   is left over from the old section.
   */
  lemma TornWrite(k: Kind, before: seq<U32>, after: seq<U32>, n: nat)
    requires Legal(k) && |before| == |after| == SLOT && BODY <= n <= k.end
    requires SectionOk(k, before) && SectionOk(k, after)
    ensures SectionOk(k, after[..n] + before[n..]) <==> (Sum(after[n..k.end]) - Sum(before[n..k.end])) % TWO_32 == 0
  {
    var t := after[..n] + before[n..];
    assert t[BODY..k.end] == after[BODY..n] + before[n..k.end];
    assert after[BODY..k.end] == after[BODY..n] + after[n..k.end];
    SumOfCat(after[BODY..n], before[n..k.end]);
    SumOfCat(after[BODY..n], after[n..k.end]);
    SameWord(Sum(after[BODY..k.end]), Sum(t[BODY..k.end]));
  }

  // ---------------------------------------------------------------- round trips over the disk

  /** A host section that was written is read back valid and equal by any other host. */
  method HostRoundTrip(d: Device, mine: array<U32>, host: nat, theirs: array<U32>) returns (status: Status)
    requires d.Valid() && mine != d.disk && theirs != d.disk && mine != theirs
    requires mine.Length == theirs.Length == SLOT && host < MAX_HOST_NUM
    modifies d.disk, mine, theirs
    ensures status == Success
    ensures theirs[BODY..HOST.end] == old(mine[BODY..HOST.end])
    ensures forall j: nat :: j <= MAX_HOST_NUM && j != host + 1 ==>
      SlotOf(d.disk[..], j) == old(SlotOf(d.disk[..], j))
  {
    SealedIsOk(HOST, [], mine[..]);
    d.WriteHost(mine, host);
    SamePrefix(HOST, mine[..], SlotOf(d.disk[..], host + 1));
    status := d.ReadHost(theirs, host);
    forall i | BODY <= i < HOST.end
      ensures theirs[i] == old(mine[i])
    {
      assert theirs[i] == theirs[..][i] == SlotOf(d.disk[..], host + 1)[i] == mine[..][i];
    }
  }
}
