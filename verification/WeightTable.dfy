/** The host-weight table: setting, summing and reloading it, and the command that edits the file. */
module WeightTable {
  import opened MachineInts
  import opened WeightText
  import opened WeightFile

  // ---------------------------------------------------------------- a table as a map

  predicate Distinct(t: seq<Entry>) {
    forall i, j :: 0 <= i < j < |t| && t[i].classname != "" ==> t[i].classname != t[j].classname
  }

  /** The first entry with a given name, or the length. */
  function IndexOf(t: seq<Entry>, name: string): (k: nat)
    ensures k <= |t|
    ensures k < |t| ==> t[k].classname == name
    ensures forall j :: 0 <= j < k ==> t[j].classname != name
  {
    if t == [] || t[0].classname == name then 0 else 1 + IndexOf(t[1..], name)
  }

  lemma IndexIs(t: seq<Entry>, name: string, k: nat)
    requires k <= |t| && (k < |t| ==> t[k].classname == name)
    requires forall j :: 0 <= j < k ==> t[j].classname != name
    ensures IndexOf(t, name) == k
  {
  }

  function Names(t: seq<Entry>): (s: set<string>)
    ensures forall n :: n in s <==> n != "" && IndexOf(t, n) < |t|
  {
    if t == [] then {} else if t[0].classname == "" then Names(t[1..]) else {t[0].classname} + Names(t[1..])
  }

  /** The class weights that a table stands for. */
  ghost function AsMap(t: seq<Entry>): map<string, U32> {
    map n | n in Names(t) :: t[IndexOf(t, n)].weight
  }

  /** set_hostweight_table finds neither the class nor a free entry for it. */
  predicate Overflows(t: seq<Entry>, name: string, weight: U32) {
    weight != 0 && IndexOf(t, name) == |t| && IndexOf(t, "") == |t|
  }

  function Updated(t: seq<Entry>, name: string, weight: U32): (u: seq<Entry>)
    ensures |u| == |t|
  {
    var i, j := IndexOf(t, name), IndexOf(t, "");
    if i < |t| then t[i := Entry(if weight == 0 then "" else name, weight)]
    else if weight == 0 || j == |t| then t
    else t[j := Entry(name, weight)]
  }

  /** set_hostweight_table; `full` is MTC_ERROR_WEIGHT_TABLE_FULL. */
  method SetHostweightTable(table: array<Entry>, name: string, weight: U32) returns (full: bool)
    modifies table
    ensures table[..] == Updated(old(table[..]), name, weight)
    ensures full == Overflows(old(table[..]), name, weight)
  {
    for index := 0 to table.Length
      invariant table[..] == old(table[..])
      invariant forall j :: 0 <= j < index ==> table[j].classname != name
    {
      if table[index].classname == name {
        table[index] := table[index].(weight := weight);
        if weight == 0 {
          table[index] := table[index].(classname := "");
        }
        return false;
      }
    }
    if weight == 0 {
      return false;
    }
    for index := 0 to table.Length
      invariant table[..] == old(table[..])
      invariant forall j :: 0 <= j < index ==> table[j].classname != ""
    {
      if table[index].classname == "" {
        table[index] := Entry(name, weight);
        return false;
      }
    }
    return true;
  }

  /** A stored weight of zero removes the class, any other weight inserts it. */
  ghost function MapAfter(m: map<string, U32>, name: string, weight: U32): map<string, U32> {
    if weight == 0 then m - {name} else m[name := weight]
  }

  /** What becomes of one name. */
  lemma SetOneName(t: seq<Entry>, name: string, weight: U32, n: string)
    requires Distinct(t) && name != "" && n != "" && !Overflows(t, name, weight)
    ensures var u := Updated(t, name, weight);
      if n == name then
        if weight == 0 then IndexOf(u, n) == |u| else IndexOf(u, n) < |u| && u[IndexOf(u, n)].weight == weight
      else
        IndexOf(u, n) == IndexOf(t, n) && (IndexOf(t, n) < |t| ==> u[IndexOf(t, n)] == t[IndexOf(t, n)])
  {
    var u, i, j := Updated(t, name, weight), IndexOf(t, name), IndexOf(t, "");
    IndexIs(u, n, if n != name then IndexOf(t, n) else if weight == 0 then |t| else if i < |t| then i else j);
  }

  lemma SetInMap(t: seq<Entry>, name: string, weight: U32, n: string)
    requires Distinct(t) && name != "" && !Overflows(t, name, weight)
    ensures var m, target := AsMap(Updated(t, name, weight)), MapAfter(AsMap(t), name, weight);
      && (n in m <==> n in target)
      && (n in m ==> m[n] == target[n])
  {
    if n != "" {
      SetOneName(t, name, weight, n);
    }
  }

  lemma MapsEqual<K, V>(a: map<K, V>, b: map<K, V>)
    requires forall n :: n in a <==> n in b
    requires forall n :: n in a ==> a[n] == b[n]
    ensures a == b
  {
  }

  /** On a table with distinct names, set_hostweight_table is insertion into the map or removal from it. */
  lemma SetIsMapUpdate(t: seq<Entry>, name: string, weight: U32)
    requires Distinct(t) && name != "" && !Overflows(t, name, weight)
    ensures AsMap(Updated(t, name, weight)) == MapAfter(AsMap(t), name, weight)
  {
    var m, target := AsMap(Updated(t, name, weight)), MapAfter(AsMap(t), name, weight);
    forall n
      ensures n in m <==> n in target
      ensures n in m ==> m[n] == target[n]
    {
      SetInMap(t, name, weight, n);
    }
    MapsEqual(m, target);
  }

  /** The empty name finds a free entry, and leaves it free. */
  lemma SetOfNoName(t: seq<Entry>, weight: U32)
    ensures AsMap(Updated(t, "", weight)) == AsMap(t)
  {
    var m, target := AsMap(Updated(t, "", weight)), AsMap(t);
    forall n
      ensures n in m <==> n in target
      ensures n in m ==> m[n] == target[n]
    {
      if n != "" {
        IndexIs(Updated(t, "", weight), n, IndexOf(t, n));
      }
    }
    MapsEqual(m, target);
  }

  lemma SetKeepsDistinct(t: seq<Entry>, name: string, weight: U32)
    requires Distinct(t)
    ensures Distinct(Updated(t, name, weight))
  {
    var i := IndexOf(t, name);
    if i < |t| && name != "" {
      assert forall x :: 0 <= x < |t| && x != i ==> t[x].classname != name;
    }
  }

  /** A class is refused exactly if it is new and the map already has as many classes as the table has entries. */
  lemma OverflowsWhenFull(t: seq<Entry>, name: string, weight: U32)
    requires Distinct(t)
    ensures Overflows(t, name, weight) <==> weight != 0 && name !in AsMap(t) && |AsMap(t)| == |t|
  {
    MapSize(t);
    InUseFills(t);
  }

  lemma {:induction false} InUseFills(t: seq<Entry>)
    ensures |InUse(t)| <= |t|
    ensures |InUse(t)| == |t| <==> IndexOf(t, "") == |t|
    decreases |t|
  {
    if t != [] {
      InUseFills(t[1..]);
    }
  }

  lemma MapSize(t: seq<Entry>)
    requires Distinct(t)
    ensures |AsMap(t)| == |InUse(t)|
  {
    assert AsMap(t).Keys == Names(t);
    NamesSize(t);
  }

  lemma {:induction false} NamesSize(t: seq<Entry>)
    requires Distinct(t)
    ensures |Names(t)| == |InUse(t)|
    decreases |t|
  {
    if t != [] {
      assert Distinct(t[1..]);
      NamesSize(t[1..]);
      if t[0].classname != "" {
        IndexIs(t[1..], t[0].classname, |t| - 1);
      }
    }
  }
}
