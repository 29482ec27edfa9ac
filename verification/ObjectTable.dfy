/** The common-object table (daemon/com.c): in-place hash chains, handles, reference counts and callbacks. */
module ObjectTable {
  import opened MachineInts

  const HASH_TABLE_SIZE: nat := 1024
  const PLACE_CONSTANT: nat := 137
  const PRIME_NUMBER: nat := 1021

  /** The bytes of a C string. */
  type Byte = x: int | 0 <= x < 256
  type ObjectId = seq<Byte>

  /** A plain char is signed: converting it to 32 bits extends its sign. */
  function Extend(c: Byte): U32 {
    if c < 128 then c else c + 0xFFFF_FF00
  }

  function HashFrom(h: U32, id: ObjectId): U32
    decreases |id|
  {
    if id == [] then h else HashFrom(ToU32(ToU32(h * PLACE_CONSTANT) + Extend(id[0])), id[1..])
  }

  function Hash(id: ObjectId): (h: nat)
    ensures h < HASH_TABLE_SIZE
  {
    HashFrom(0, id) % PRIME_NUMBER
  }

  /** calc_hash. */
  method CalcHash(id: ObjectId) returns (hash: nat)
    ensures hash == Hash(id)
  {
    var h: U32 := 0;
    var i := 0;
    while i < |id|
      invariant 0 <= i <= |id|
      invariant HashFrom(h, id[i..]) == HashFrom(0, id)
    {
      assert id[i..][0] == id[i] && id[i..][1..] == id[i + 1..];
      h := ToU32(ToU32(h * PLACE_CONSTANT) + Extend(id[i]));
      i := i + 1;
    }
    hash := h % PRIME_NUMBER;
  }

  /** The same without any wrap: the characters are the digits of a number, the last one the lowest. */
  function Polynomial(id: ObjectId): int {
    if id == [] then 0 else Polynomial(id[..|id| - 1]) * PLACE_CONSTANT + Signed(id[|id| - 1])
  }

  function Signed(c: Byte): int {
    if c < 128 then c else c - 256
  }

  /** Wrapping at every step is the same as wrapping the polynomial over the signed characters once. */
  lemma {:induction false} HashWrapsOnce(id: ObjectId)
    ensures HashFrom(0, id) == ToU32(Polynomial(id))
    ensures Hash(id) == ToU32(Polynomial(id)) % PRIME_NUMBER
    decreases |id|
  {
    if id != [] {
      var front, c := id[..|id| - 1], id[|id| - 1];
      assert id == front + [c];
      HashOfLast(0, front, c);
      HashWrapsOnce(front);
      WrapOfStep(Polynomial(front), c);
    }
  }

  lemma {:induction false} HashOfLast(h: U32, front: ObjectId, c: Byte)
    ensures HashFrom(h, front + [c]) == ToU32(ToU32(HashFrom(h, front) * PLACE_CONSTANT) + Extend(c))
    decreases |front|
  {
    if front == [] {
      assert front + [c] == [c];
      assert [c][1..] == [];
    } else {
      assert (front + [c])[0] == front[0] && (front + [c])[1..] == front[1..] + [c];
      HashOfLast(ToU32(ToU32(h * PLACE_CONSTANT) + Extend(front[0])), front[1..], c);
    }
  }

  lemma WrapOfStep(p: int, c: Byte)
    ensures ToU32(ToU32(ToU32(p) * PLACE_CONSTANT) + Extend(c)) == ToU32(p * PLACE_CONSTANT + Signed(c))
  {
    var q := p / TWO_32;
    assert p * PLACE_CONSTANT == ToU32(p) * PLACE_CONSTANT + (q * PLACE_CONSTANT) * TWO_32;
    ModShift(ToU32(p) * PLACE_CONSTANT, q * PLACE_CONSTANT);
    ToU32Absorbs(p * PLACE_CONSTANT, Extend(c));
    ModShift(p * PLACE_CONSTANT + Signed(c), if c < 128 then 0 else 1);
  }

  class ComObject {
    const id: ObjectId
    var next: ComObject?
    var callbacks: seq<nat>   // callback_list_head
    var inUse: nat
    var refCount: nat

    constructor (id: ObjectId)
      ensures this.id == id && next == null && callbacks == [] && inUse == 0 && refCount == 0
    {
      this.id := id;
      next, callbacks, inUse, refCount := null, [], 0, 0;
    }
  }

  class Handle {
    const target: ComObject

    constructor (target: ComObject)
      ensures this.target == target
    {
      this.target := target;
    }
  }

  function Without<T>(s: seq<T>, k: nat): seq<T>
    requires k < |s|
  {
    s[..k] + s[k + 1..]
  }

  class Table {
    const bucket: array<ComObject?>
    ghost var chain: seq<seq<ComObject>>   // the objects of each bucket, in list order
    ghost var open: set<Handle>            // handles given out and not yet closed

    ghost function Objects(): set<ComObject>
      reads this`chain
    {
      Members(chain)
    }

    /** The `i`-th object of a list, null behind its end. */
    static function At(c: seq<ComObject>, i: nat): ComObject? {
      if i < |c| then c[i] else null
    }

    /** Bucket `b` is the null-terminated list of its chain; every id hashes there and occurs once. */
    ghost predicate ChainOk(b: nat)
      requires b < |chain| && b < bucket.Length
      reads this`chain, bucket, Objects()`next
    {
      var c := chain[b];
      && bucket[b] == At(c, 0)
      && (forall i :: 0 <= i < |c| ==> c[i].next == At(c, i + 1))
      && (forall i :: 0 <= i < |c| ==> Hash(c[i].id) == b)
      && (forall i, j :: 0 <= i < j < |c| ==> c[i].id != c[j].id)
    }

    static ghost function On(handles: set<Handle>, o: ComObject): set<Handle> {
      set h | h in handles && h.target == o
    }

    ghost predicate Counted(o: ComObject)
      reads this, o
    {
      o.refCount == |On(open, o)| && (o.refCount > 0 || o.inUse > 0 || o.callbacks != [])
    }

    ghost predicate Structured()
      reads this`chain, bucket, Objects()`next
    {
      && bucket.Length == HASH_TABLE_SIZE && |chain| == HASH_TABLE_SIZE
      && forall b :: 0 <= b < HASH_TABLE_SIZE ==> ChainOk(b)
    }

    ghost predicate Valid()
      reads this, bucket, Objects()
    {
      && Structured()
      && (forall o :: o in Objects() ==> Counted(o))
      && (forall h :: h in open ==> h.target in Objects())
    }

    constructor ()
      ensures Valid() && open == {} && Objects() == {}
    {
      bucket := new ComObject?[HASH_TABLE_SIZE](_ => null);
      chain := seq(HASH_TABLE_SIZE, _ => []);
      open := {};
    }

    /** find_common_object; the bucket is the one that CalcHash computes. */
    method Find(id: ObjectId) returns (found: ComObject?)
      requires Valid()
      ensures found != null ==> found in Objects() && found.id == id
      ensures found == null ==> forall o :: o in Objects() ==> o.id != id
    {
      var h := Hash(id);
      assert ChainOk(h);
      ghost var c := chain[h];
      ghost var i := 0;
      found := bucket[h];
      while found != null && found.id != id
        invariant 0 <= i <= |c|
        invariant found == At(c, i)
        invariant forall j :: 0 <= j < i ==> c[j].id != id
        decreases |c| - i
      {
        found := found.next;
        i := i + 1;
      }
      if found == null {
        forall o | o in Objects()
          ensures o.id != id
        {
          var b, j :| 0 <= b < |chain| && 0 <= j < |chain[b]| && o == chain[b][j];
          assert ChainOk(b);
        }
      } else {
        assert found == chain[h][i];
      }
    }

    static ghost function Members(chain: seq<seq<ComObject>>): set<ComObject> {
      set b, i | 0 <= b < |chain| && 0 <= i < |chain[b]| :: chain[b][i]
    }

    static lemma ChainsJoin(chain: seq<seq<ComObject>>, h: nat, o: ComObject)
      requires h < |chain|
      ensures Members(chain[h := [o] + chain[h]]) == Members(chain) + {o}
    {
      var longer := chain[h := [o] + chain[h]];
      assert longer[h][0] == o;
      forall p | p in Members(chain)
        ensures p in Members(longer)
      {
        var b, i :| 0 <= b < |chain| && 0 <= i < |chain[b]| && p == chain[b][i];
        assert longer[b][if b == h then i + 1 else i] == p;
      }
      forall p | p in Members(longer) && p != o
        ensures p in Members(chain)
      {
        var b, i :| 0 <= b < |longer| && 0 <= i < |longer[b]| && p == longer[b][i];
        assert chain[b][if b == h then i - 1 else i] == p;
      }
    }

    /** insert_common_object: a new object goes to the head of its bucket. */
    method Insert(o: ComObject)
      requires Structured()
      requires forall p :: p in Objects() ==> p != o && p.id != o.id
      modifies this`chain, bucket, o`next
      ensures Structured()
      ensures chain == old(chain)[Hash(o.id) := [o] + old(chain)[Hash(o.id)]]
      ensures Objects() == old(Objects()) + {o}
    {
      var h := Hash(o.id);
      assert forall b, i :: 0 <= b < HASH_TABLE_SIZE && 0 <= i < |chain[b]| ==> chain[b][i] in Objects();
      o.next := bucket[h];
      bucket[h] := o;
      chain := chain[h := [o] + chain[h]];
      forall b | 0 <= b < HASH_TABLE_SIZE
        ensures ChainOk(b)
      {
        assert old(ChainOk(b));
      }
      ChainsJoin(old(chain), h, o);
    }

    static lemma ChainLoses(chain: seq<seq<ComObject>>, h: nat, k: nat)
      requires h < |chain| && k < |chain[h]|
      requires forall b, i :: 0 <= b < |chain| && 0 <= i < |chain[b]| && (b != h || i != k) ==>
                 chain[b][i] != chain[h][k]
      ensures Members(chain[h := Without(chain[h], k)]) == Members(chain) - {chain[h][k]}
    {
      var shorter := chain[h := Without(chain[h], k)];
      forall p | p in Members(chain) && p != chain[h][k]
        ensures p in Members(shorter)
      {
        var b, i :| 0 <= b < |chain| && 0 <= i < |chain[b]| && p == chain[b][i];
        assert shorter[b][if b == h && i > k then i - 1 else i] == p;
      }
      forall p | p in Members(shorter)
        ensures p in Members(chain) && p != chain[h][k]
      {
        var b, i :| 0 <= b < |shorter| && 0 <= i < |shorter[b]| && p == shorter[b][i];
        assert chain[b][if b == h && i >= k then i + 1 else i] == p;
      }
    }

    /** The walk of delete_common_object: the object with this id and the one before it. */
    method Locate(id: ObjectId) returns (h: nat, prev: ComObject?, cur: ComObject?, ghost i: nat)
      requires Structured()
      ensures Structured() && h == Hash(id) && i <= |chain[h]|
      ensures cur == At(chain[h], i) && prev == (if i == 0 then null else chain[h][i - 1])
      ensures cur != null ==> cur.id == id
      ensures cur == null ==> forall o :: o in Objects() ==> o.id != id
    {
      h := Hash(id);
      assert ChainOk(h);
      ghost var c := chain[h];
      i := 0;
      prev := null;
      cur := bucket[h];
      while cur != null && cur.id != id
        invariant 0 <= i <= |c| && cur == At(c, i) && prev == (if i == 0 then null else c[i - 1])
        invariant forall j :: 0 <= j < i ==> c[j].id != id
        decreases |c| - i
      {
        prev := cur;
        cur := cur.next;
        i := i + 1;
      }
      if cur == null {
        forall o | o in Objects()
          ensures o.id != id
        {
          var b, j :| 0 <= b < |chain| && 0 <= j < |chain[b]| && o == chain[b][j];
          assert ChainOk(b);
        }
      }
    }

    /** delete_common_object: unlink the object with this id from its bucket. */
    method Delete(id: ObjectId) returns (gone: ComObject?)
      requires Structured()
      modifies this`chain, bucket, Objects()`next
      ensures Structured()
      ensures gone == null ==> Objects() == old(Objects()) && forall o :: o in Objects() ==> o.id != id
      ensures gone != null ==> gone.id == id && gone in old(Objects()) && Objects() == old(Objects()) - {gone}
    {
      var h, prev;
      ghost var i;
      h, prev, gone, i := Locate(id);
      if gone == null {
        return;
      }
      ghost var c := chain[h];
      OnlyLink(h, i);
      ChainLoses(chain, h, i);
      if prev == null {
        UnlinkFirst(h);
      } else {
        UnlinkAfter(h, prev, i);
      }
    }

    /** Unlink the first object of a bucket. */
    method UnlinkFirst(h: nat)
      requires Structured() && h < HASH_TABLE_SIZE && chain[h] != []
      modifies this`chain, bucket
      ensures Structured() && chain == old(chain)[h := Without(old(chain)[h], 0)]
    {
      ghost var c := chain[h];
      ghost var d := Without(c, 0);
      assert ChainOk(h);
      bucket[h] := bucket[h].next;
      TailOk(c, d);
      chain := chain[h := d];
      forall b | 0 <= b < HASH_TABLE_SIZE && b != h
        ensures ChainOk(b)
      {
        assert old(ChainOk(b));
      }
      assert ChainOk(h) by {
        assert old(ChainOk(h)) && chain[h] == d;
      }
    }

    lemma TailOk(c: seq<ComObject>, d: seq<ComObject>)
      requires c != [] && d == Without(c, 0)
      ensures |d| == |c| - 1 && forall j :: 0 <= j < |d| ==> d[j] == c[j + 1]
      ensures forall j: nat :: j <= |d| ==> At(d, j) == At(c, j + 1)
    {
    }

    /** Unlink the object behind `prev`. */
    method UnlinkAfter(h: nat, prev: ComObject, ghost i: nat)
      requires Structured() && h < HASH_TABLE_SIZE && 0 < i < |chain[h]| && prev == chain[h][i - 1]
      modifies this`chain, prev`next
      ensures Structured() && chain == old(chain)[h := Without(old(chain)[h], i)]
    {
      ghost var c := chain[h];
      ghost var d := Without(c, i);
      OnlyLink(h, i - 1);
      UnlinkedChainOk(c, d, i);
      assert ChainOk(h);
      prev.next := prev.next.next;
      chain := chain[h := d];
      forall b | 0 <= b < HASH_TABLE_SIZE && b != h
        ensures ChainOk(b)
      {
        assert old(ChainOk(b)) && chain[b] == old(chain)[b];
      }
      assert ChainOk(h) by {
        assert chain[h] == d;
        forall j | 0 <= j < |d|
          ensures d[j].next == At(d, j + 1)
        {
          assert j != i - 1 ==> d[j].next == old(d[j].next);
        }
      }
    }

    /** An object stands in one place only. */
    lemma OnlyLink(h: nat, i: nat)
      requires Structured() && h < HASH_TABLE_SIZE && i < |chain[h]|
      ensures forall b, j :: 0 <= b < HASH_TABLE_SIZE && 0 <= j < |chain[b]| && !(b == h && j == i) ==>
                chain[b][j] != chain[h][i]
    {
      forall b, j | 0 <= b < HASH_TABLE_SIZE && 0 <= j < |chain[b]| && !(b == h && j == i)
        ensures chain[b][j] != chain[h][i]
      {
        assert ChainOk(b) && ChainOk(h);
        if b == h && j < i {
          assert chain[b][j].id != chain[h][i].id;
        } else if b == h {
          assert chain[h][i].id != chain[b][j].id;
        }
      }
    }

    lemma UnlinkedChainOk(c: seq<ComObject>, d: seq<ComObject>, i: nat)
      requires 0 < i < |c| && d == Without(c, i)
      ensures |d| == |c| - 1 && forall j :: 0 <= j < |d| ==> d[j] == c[if j < i then j else j + 1]
      ensures forall j: nat :: j <= |d| ==> At(d, j) == At(c, if j < i then j else j + 1)
    {
    }

    static lemma HandleAdded(handles: set<Handle>, h: Handle, o: ComObject)
      requires h !in handles
      ensures |On(handles + {h}, o)| == |On(handles, o)| + if h.target == o then 1 else 0
    {
      assert On(handles + {h}, o) == if h.target == o then On(handles, o) + {h} else On(handles, o);
    }

    static lemma HandleRemoved(handles: set<Handle>, h: Handle, o: ComObject)
      requires h in handles
      ensures |On(handles - {h}, o)| == |On(handles, o)| - if h.target == o then 1 else 0
    {
      HandleAdded(handles - {h}, h, o);
      assert handles - {h} + {h} == handles;
    }

    /** An id names at most one object of the table. */
    lemma IdsAreUnique(p: ComObject, q: ComObject)
      requires Structured() && p in Objects() && q in Objects() && p.id == q.id
      ensures p == q
    {
      var b, i :| 0 <= b < |chain| && 0 <= i < |chain[b]| && p == chain[b][i];
      var d, j :| 0 <= d < |chain| && 0 <= j < |chain[d]| && q == chain[d][j];
      assert ChainOk(b) && ChainOk(d);
    }

    /** The object with this id; a new one, without handles yet, if there was none. */
    method FindOrCreate(id: ObjectId) returns (o: ComObject)
      requires Valid()
      modifies this`chain, bucket
      ensures Structured() && o.id == id && o in Objects() && Objects() == old(Objects()) + {o}
      ensures o !in old(Objects()) ==>
                fresh(o) && o.refCount == 0 && o.inUse == 0 && o.callbacks == [] && On(open, o) == {}
    {
      var found := Find(id);
      if found == null {
        o := new ComObject(id);
        assert On(open, o) == {};
        Insert(o);
      } else {
        o := found;
      }
    }

    /** com_create and com_open: a new handle on the object with this id, made on demand. */
    method Open(id: ObjectId) returns (h: Handle)
      requires Valid()
      modifies this`chain, this`open, bucket, Objects()
      ensures Valid() && fresh(h) && open == old(open) + {h} && h.target.id == id
      ensures h.target in Objects() && Objects() == old(Objects()) + {h.target}
      ensures h.target !in old(Objects()) ==> fresh(h.target) && h.target.refCount == 1
      ensures h.target !in old(Objects()) ==> h.target.inUse == 0 && h.target.callbacks == []
      ensures forall o :: o in old(Objects()) ==> o.refCount == old(o.refCount) + if o == h.target then 1 else 0
      ensures forall o :: o in old(Objects()) ==> o.inUse == old(o.inUse) && o.callbacks == old(o.callbacks)
    {
      var o := FindOrCreate(id);
      assert o in old(Objects()) ==> old(Counted(o));
      h := new Handle(o);
      forall p
        ensures |On(open + {h}, p)| == |On(open, p)| + if h.target == p then 1 else 0
      {
        HandleAdded(open, h, p);
      }
      o.refCount := o.refCount + 1;
      open := open + {h};
    }

    /** com_close: the object goes when its last handle, lock and callback are gone, and not before. */
    method Close(h: Handle)
      requires Valid() && h in open
      modifies this`chain, this`open, bucket, Objects()
      ensures Valid() && open == old(open) - {h}
      ensures var o := h.target;
              && o.refCount == old(o.refCount) - 1
              && Objects() == old(Objects()) - if o.refCount == 0 && o.inUse == 0 && o.callbacks == [] then {o} else {}
      ensures forall o :: o in old(Objects()) ==> o.inUse == old(o.inUse) && o.callbacks == old(o.callbacks)
      ensures forall o :: o in old(Objects()) && o != h.target ==> o.refCount == old(o.refCount)
    {
      var o := h.target;
      forall p
        ensures |On(open - {h}, p)| == |On(open, p)| - if h.target == p then 1 else 0
      {
        HandleRemoved(open, h, p);
      }
      assert Counted(o) && h in On(open, o);
      o.refCount := o.refCount - 1;
      open := open - {h};
      assert Structured();
      if o.refCount == 0 && o.inUse == 0 && o.callbacks == [] {
        assert On(open, o) == {};
        forall p | p in Objects() && p.id == o.id
          ensures p == o
        {
          IdsAreUnique(p, o);
        }
        var gone := Delete(o.id);
        assert gone == o;
      }
    }

    /** com_register_callback: the new callback goes to the head of the list. */
    method RegisterCallback(h: Handle, callback: nat)
      requires Valid() && h in open
      modifies h.target`callbacks
      ensures Valid() && h.target.callbacks == [callback] + old(h.target.callbacks)
    {
      var o := h.target;
      o.callbacks := [callback] + o.callbacks;
      assert forall p :: p in Objects() && p != o ==> old(Counted(p));
    }

    /** com_deregister_callback: the first matching entry goes; false if there is none. */
    method DeregisterCallback(h: Handle, callback: nat) returns (found: bool)
      requires Valid() && h in open
      modifies h.target`callbacks
      ensures Valid() && found == (callback in old(h.target.callbacks))
      ensures !found ==> h.target.callbacks == old(h.target.callbacks)
      ensures found ==> exists k :: 0 <= k < |old(h.target.callbacks)| && old(h.target.callbacks)[k] == callback &&
                          callback !in old(h.target.callbacks)[..k] &&
                          h.target.callbacks == Without(old(h.target.callbacks), k)
    {
      var o := h.target;
      var k := 0;
      assert h in On(open, o) && Counted(o);
      while k < |o.callbacks| && o.callbacks[k] != callback
        invariant 0 <= k <= |o.callbacks| && callback !in o.callbacks[..k]
      {
        k := k + 1;
      }
      found := k < |o.callbacks|;
      if found {
        o.callbacks := Without(o.callbacks, k);
      }
      assert o.refCount > 0;
      assert forall p :: p in Objects() && p != o ==> old(Counted(p));
    }

    /** com_writer_lock and com_reader_lock mark the object as in use. */
    method Lock(h: Handle)
      requires Valid() && h in open
      modifies h.target`inUse
      ensures Valid() && h.target.inUse == old(h.target.inUse) + 1
    {
      h.target.inUse := h.target.inUse + 1;
      assert forall p :: p in Objects() && p != h.target ==> old(Counted(p));
    }

    /** com_writer_unlock and com_reader_unlock undo it. */
    method Unlock(h: Handle)
      requires Valid() && h in open && h.target.inUse > 0
      modifies h.target`inUse
      ensures Valid() && h.target.inUse == old(h.target.inUse) - 1
    {
      assert h in On(open, h.target) && Counted(h.target);
      h.target.inUse := h.target.inUse - 1;
      assert forall p :: p in Objects() && p != h.target ==> old(Counted(p));
    }

    /** An open handle's object is in its own bucket, is the only one with its id there, and is counted. */
    lemma OpenHandleKeepsObject(h: Handle)
      requires Valid() && h in open
      ensures h.target in Objects() && h.target in chain[Hash(h.target.id)] && h.target.refCount > 0
      ensures forall o :: o in Objects() && o.id == h.target.id ==> o == h.target
    {
      var o := h.target;
      assert h in On(open, o) && Counted(o);
      var b, i :| 0 <= b < |chain| && 0 <= i < |chain[b]| && o == chain[b][i];
      assert ChainOk(b);
      forall p | p in Objects() && p.id == o.id
        ensures p == o
      {
        IdsAreUnique(p, o);
      }
    }
  }
}
