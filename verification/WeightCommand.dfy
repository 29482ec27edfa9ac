/**
 The daemon's reading of the weight file (daemon/hostweight.c) and the command that edits it (commands/weightctl.c).
 */
module WeightCommand {
  import opened MachineInts
  import Scores
  import opened WeightText
  import opened WeightFile
  import opened WeightTable

  const MAX_WEIGHT: nat := 65535          // MAX_HOST_WEIGHT_VALUE
  const BUILTIN_WEIGHT: nat := 1          // BUILTIN_HOST_WEIGHT_VALUE
  const BUILTIN_CLASS := "native"         // BUILTIN_HOST_WEIGHT_CLASSNAME

  // ---------------------------------------------------------------- the sum of a table

  function Share(e: Entry): nat {
    if e.classname == "" then 0 else e.weight
  }

  /** The sum of the weights in use, without wrap-around. */
  function Total(t: seq<Entry>): nat {
    if t == [] then 0 else Total(t[..|t| - 1]) + Share(t[|t| - 1])
  }

  /** calc_hostweight: a 32-bit sum. */
  method CalcHostweight(table: array<Entry>) returns (weight: U32)
    ensures weight == ToU32(BUILTIN_WEIGHT + Total(table[..]))
  {
    weight := BUILTIN_WEIGHT;
    for index := 0 to table.Length
      invariant weight == ToU32(BUILTIN_WEIGHT + Total(table[..index]))
    {
      ghost var t := table[..index + 1];
      assert t[..index] == table[..index];
      if table[index].classname != "" {
        ToU32Absorbs(BUILTIN_WEIGHT + Total(table[..index]), table[index].weight);
        weight := ToU32(weight + table[index].weight);
      }
    }
    assert table[..table.Length] == table[..];
  }

  /** The weight of the first entry of that name, or 0. */
  function WeightIn(t: seq<Entry>, name: string): U32 {
    if IndexOf(t, name) < |t| then t[IndexOf(t, name)].weight else 0
  }

  /** hostweight_get_weight. */
  method GetWeight(table: array<Entry>, name: string) returns (weight: U32)
    ensures weight == WeightIn(table[..], name)
  {
    for index := 0 to table.Length
      invariant forall j :: 0 <= j < index ==> table[j].classname != name
    {
      if table[index].classname == name {
        IndexIs(table[..], name, index);
        return table[index].weight;
      }
    }
    return 0;
  }

  lemma {:induction false} TotalOfReplaced(t: seq<Entry>, k: nat, e: Entry)
    requires k < |t|
    ensures Total(t[k := e]) == Total(t) - Share(t[k]) + Share(e)
    decreases |t|
  {
    var n := |t| - 1;
    if k == n {
      assert t[k := e][..n] == t[..n];
    } else {
      assert t[k := e][..n] == t[..n][k := e];
      TotalOfReplaced(t[..n], k, e);
    }
  }

  /** Setting a class moves the total by the difference of its weights and nothing else. */
  lemma SetMovesTotal(t: seq<Entry>, name: string, weight: U32)
    requires name != "" && !Overflows(t, name, weight)
    ensures Total(Updated(t, name, weight)) == Total(t) - WeightIn(t, name) + weight
  {
    var i, j := IndexOf(t, name), IndexOf(t, "");
    if i < |t| {
      TotalOfReplaced(t, i, Entry(if weight == 0 then "" else name, weight));
    } else if weight != 0 {
      TotalOfReplaced(t, j, Entry(name, weight));
    }
  }

  lemma {:induction false} TotalBound(t: seq<Entry>, most: nat)
    requires forall i :: 0 <= i < |t| ==> Share(t[i]) <= most
    ensures Total(t) <= |t| * most
    decreases |t|
  {
    if t != [] {
      TotalBound(t[..|t| - 1], most);
    }
  }

  // ---------------------------------------------------------------- moving the blank entries to the end

  lemma {:induction false} TotalOfCat(a: seq<Entry>, b: seq<Entry>)
    ensures Total(a + b) == Total(a) + Total(b)
    decreases |b|
  {
    if b == [] {
      assert a + b == a;
    } else {
      assert (a + b)[..|a + b| - 1] == a + b[..|b| - 1];
      TotalOfCat(a, b[..|b| - 1]);
    }
  }

  lemma {:induction false} TotalOfInUse(t: seq<Entry>)
    ensures Total(InUse(t)) == Total(t)
    decreases |t|
  {
    if t != [] {
      TotalOfInUse(t[1..]);
      TotalOfCat([t[0]], t[1..]);
      TotalOfCat([t[0]], InUse(t[1..]));
      assert t == [t[0]] + t[1..];
      assert Total([t[0]]) == Share(t[0]);
    }
  }

  lemma LookupTail(t: seq<Entry>, n: string)
    requires t != []
    ensures IndexOf(t, n) < |t| <==> t[0].classname == n || IndexOf(t[1..], n) < |t[1..]|
    ensures WeightIn(t, n) == if t[0].classname == n then t[0].weight else WeightIn(t[1..], n)
  {
  }

  lemma {:induction false} LookupInUse(t: seq<Entry>, n: string)
    requires n != ""
    ensures IndexOf(InUse(t), n) < |InUse(t)| <==> IndexOf(t, n) < |t|
    ensures WeightIn(InUse(t), n) == WeightIn(t, n)
    decreases |t|
  {
    if t != [] {
      LookupInUse(t[1..], n);
      LookupTail(t, n);
      if t[0].classname != "" {
        assert InUse(t)[1..] == InUse(t[1..]);
        LookupTail(InUse(t), n);
      }
    }
  }

  lemma {:induction false} LookupPadded(t: seq<Entry>, size: nat, n: string)
    requires n != "" && |t| <= size
    ensures IndexOf(Padded(t, BLANK, size), n) == if IndexOf(t, n) < |t| then IndexOf(t, n) else size
  {
    IndexIs(Padded(t, BLANK, size), n, if IndexOf(t, n) < |t| then IndexOf(t, n) else size);
  }

  /** Neither the classes nor the total depend on where the blank entries stand. */
  lemma CompactingKeepsWeights(t: seq<Entry>)
    ensures |InUse(t)| <= |t|
    ensures AsMap(Padded(InUse(t), BLANK, |t|)) == AsMap(t)
    ensures Total(Padded(InUse(t), BLANK, |t|)) == Total(t)
  {
    InUseIsNoLonger(t);
    var u := Padded(InUse(t), BLANK, |t|);
    forall n
      ensures n in AsMap(u) <==> n in AsMap(t)
      ensures n in AsMap(u) ==> AsMap(u)[n] == AsMap(t)[n]
    {
      if n != "" {
        LookupInUse(t, n);
        LookupPadded(InUse(t), |t|, n);
      }
    }
    MapsEqual(AsMap(u), AsMap(t));
    TotalOfInUse(t);
    TotalBound(u[|InUse(t)|..], 0);
    TotalOfCat(InUse(t), u[|InUse(t)|..]);
    assert u == InUse(t) + u[|InUse(t)|..];
  }

  // ---------------------------------------------------------------- the daemon and the command on one file

  /** What read_hostweight_file makes of a file. */
  function TableOf(file: string): (t: seq<Entry>)
    ensures |t| == CLASS_NUM
  {
    Padded(Records(ScanLine, LinesFrom(Loaded(file), 0), CLASS_NUM), BLANK, CLASS_NUM)
  }

  /** A local table with what read_hostweight_file reads into it. */
  method ReadTable(file: string) returns (table: array<Entry>)
    ensures fresh(table) && table.Length == CLASS_NUM && table[..] == TableOf(file)
  {
    table := new Entry[CLASS_NUM];
    ReadHostweightFile(file, table);
  }

  /** The last loop of hostweight_update. */
  method Copy(table: array<Entry>, newTable: array<Entry>)
    requires table.Length == newTable.Length && table != newTable
    modifies table
    ensures table[..] == old(newTable[..])
  {
    for index := 0 to table.Length
      invariant forall j :: 0 <= j < index ==> table[j] == newTable[j]
    {
      table[index] := newTable[index];
    }
  }

  /** hostweight_reload: read into a new table, copy it over the table in use, sum it. */
  method Reload(file: string, table: array<Entry>) returns (weight: U32)
    requires table.Length == CLASS_NUM
    modifies table
    ensures table[..] == TableOf(file)
    ensures weight == ToU32(BUILTIN_WEIGHT + Total(TableOf(file)))
  {
    var newTable := ReadTable(file);
    Copy(table, newTable);
    weight := CalcHostweight(table);
  }

  predicate Accepts(name: string, weight: U32) {
    weight <= MAX_WEIGHT && name != BUILTIN_CLASS && forall i :: 0 <= i < |name| ==> '!' <= name[i] <= '~'
  }

  function Truncated(name: string): string {
    if |name| >= CLASSNAME_LEN then name[..CLASSNAME_LEN - 1] else name
  }

  datatype Outcome = Outcome(file: string, ok: bool)

  function CommandOutcome(file: string, name: string, weight: U32): Outcome {
    var t, c := TableOf(file), Truncated(name);
    if Accepts(name, weight) && !Overflows(t, c, weight) then Outcome(TextOf(Updated(t, c, weight)), true)
    else Outcome(file, false)
  }

  /** weight_set, the command that edits the file. */
  method WeightSet(file: string, name: string, weight: U32) returns (file': string, ok: bool)
    ensures Outcome(file', ok) == CommandOutcome(file, name, weight)
  {
    if weight > MAX_WEIGHT || name == BUILTIN_CLASS {
      return file, false;
    }
    for i := 0 to |name|
      invariant forall j :: 0 <= j < i ==> '!' <= name[j] <= '~'
    {
      if !('!' <= name[i] <= '~') {
        return file, false;
      }
    }
    var table := ReadTable(file);
    var full := SetHostweightTable(table, Truncated(name), weight);
    if full {
      return file, false;
    }
    var data := WriteHostweightFile(table);
    return data, true;
  }

  /** A name of at most 64 characters is stored whole, of a longer one the first 64 characters. */
  lemma NamesAreStoredWhole(name: string)
    ensures |name| <= 64 ==> Truncated(name) == name
    ensures |name| > 64 ==> |Truncated(name)| == 64 && Truncated(name) <= name
  {
  }

  // ---------------------------------------------------------------- what a sequence of commands leaves in the file

  /** A table that a file can stand for. */
  ghost predicate Stored(t: seq<Entry>) {
    && |t| == CLASS_NUM && Legal(t) && Distinct(t)
    && forall i :: 0 <= i < |t| && t[i].classname != "" ==> 1 <= t[i].weight <= MAX_WEIGHT
  }

  lemma {:induction false} InUseIsDistinct(t: seq<Entry>)
    requires Distinct(t)
    ensures Distinct(InUse(t))
    decreases |t|
  {
    if t != [] {
      InUseIsDistinct(t[1..]);
      if t[0].classname != "" {
        var n := t[0].classname;
        LookupInUse(t[1..], n);
        IndexIs(t[1..], n, |t| - 1);
        DistinctCons(t[0], InUse(t[1..]));
      }
    }
  }

  lemma DistinctCons(e: Entry, t: seq<Entry>)
    requires Distinct(t) && IndexOf(t, e.classname) == |t|
    ensures Distinct([e] + t)
  {
  }

  /** Reading back what was written: the same classes, the same total, still a stored table. */
  lemma ReadBack(t: seq<Entry>) returns (u: seq<Entry>)
    requires Stored(t)
    ensures u == TableOf(TextOf(t)) && Stored(u) && AsMap(u) == AsMap(t) && Total(u) == Total(t)
  {
    FileRoundTrip(t);
    CompactingKeepsWeights(t);
    InUseIsDistinct(t);
    InUseIsNoLonger(t);
    StoredPadded(t);
    u := Padded(InUse(t), BLANK, CLASS_NUM);
  }

  lemma StoredPadded(t: seq<Entry>)
    requires Stored(t) && |InUse(t)| <= |t| && Distinct(InUse(t))
    requires forall e :: e in InUse(t) <==> e in t && e.classname != ""
    ensures Stored(Padded(InUse(t), BLANK, CLASS_NUM))
  {
    var u := Padded(InUse(t), BLANK, CLASS_NUM);
    forall i | 0 <= i < |u| && u[i].classname != ""
      ensures u[i] in t
    {
      assert u[i] in InUse(t);
    }
  }

  lemma TotalFits(t: seq<Entry>)
    requires Stored(t)
    ensures ToU32(BUILTIN_WEIGHT + Total(t)) == BUILTIN_WEIGHT + Total(t) <= BUILTIN_WEIGHT + CLASS_NUM * MAX_WEIGHT
  {
    TotalBound(t, MAX_WEIGHT);
  }

  /**
   The daemon reads the classes of a stored table; their exact sum plus one, at most 16 * 65535 + 1, is its weight.
   */
  lemma ReloadedWeight(t: seq<Entry>) returns (u: seq<Entry>)
    requires Stored(t)
    ensures u == TableOf(TextOf(t)) && AsMap(u) == AsMap(t) && Total(u) == Total(t)
    ensures ToU32(BUILTIN_WEIGHT + Total(u)) == BUILTIN_WEIGHT + Total(t) <= BUILTIN_WEIGHT + CLASS_NUM * MAX_WEIGHT
  {
    u := ReadBack(t);
    TotalFits(u);
  }

  lemma UpdatedIsStored(t: seq<Entry>, name: string, weight: U32)
    requires Stored(t) && Accepts(name, weight)
    ensures Stored(Updated(t, Truncated(name), weight))
  {
    var u := Updated(t, Truncated(name), weight);
    SetKeepsDistinct(t, Truncated(name), weight);
    forall i | 0 <= i < |u| && u[i].classname != ""
      ensures LegalName(u[i].classname) && 1 <= u[i].weight <= MAX_WEIGHT
    {
      assert u[i] != t[i] ==> u[i] == Entry(Truncated(name), weight);
    }
  }

  ghost predicate Succeeds(m: map<string, U32>, name: string, weight: U32) {
    Accepts(name, weight) && (weight == 0 || Truncated(name) in m || |m| < CLASS_NUM)
  }

  /** What a command does to the classes. */
  ghost function ClassesAfter(m: map<string, U32>, name: string, weight: U32): map<string, U32> {
    if Succeeds(m, name, weight) && name != "" then MapAfter(m, Truncated(name), weight) else m
  }

  lemma CommandStep(t: seq<Entry>, name: string, weight: U32) returns (t': seq<Entry>)
    requires Stored(t)
    ensures CommandOutcome(TextOf(t), name, weight) == Outcome(TextOf(t'), Succeeds(AsMap(t), name, weight))
    ensures Stored(t') && AsMap(t') == ClassesAfter(AsMap(t), name, weight)
  {
    var c := Truncated(name);
    var r := ReadBack(t);
    OverflowsWhenFull(r, c, weight);
    SizeBound(r);
    if Accepts(name, weight) && !Overflows(r, c, weight) {
      UpdatedIsStored(r, name, weight);
      if c == "" {
        SetOfNoName(r, weight);
      } else {
        SetIsMapUpdate(r, c, weight);
      }
      t' := Updated(r, c, weight);
    } else {
      t' := t;
    }
  }

  /**
   A command with a printable class name of 1 to 64 characters, other than the built-in one, and a weight of at most
   65535 takes effect if the class exists, is removed, or there are fewer than sixteen.
   */
  lemma LegalCommandTakesEffect(t: seq<Entry>, name: string, weight: U32) returns (t': seq<Entry>)
    requires Stored(t) && 1 <= |name| <= 64 && name != "native" && weight <= 65535
    requires forall i :: 0 <= i < |name| ==> '!' <= name[i] <= '~'
    ensures CommandOutcome(TextOf(t), name, weight).file == TextOf(t') && Stored(t')
    ensures var ok := weight == 0 || name in AsMap(t) || |AsMap(t)| < 16;
      && CommandOutcome(TextOf(t), name, weight).ok == ok
      && AsMap(t') == if !ok then AsMap(t) else if weight == 0 then AsMap(t) - {name} else AsMap(t)[name := weight]
  {
    NamesAreStoredWhole(name);
    t' := CommandStep(t, name, weight);
  }

  /** Any other command with a name fails, and leaves the file alone; a name without characters changes no class. */
  lemma BadCommandFails(file: string, name: string, weight: U32)
    requires weight > 65535 || name == "native" || exists i :: 0 <= i < |name| && !('!' <= name[i] <= '~')
    ensures CommandOutcome(file, name, weight) == Outcome(file, false)
  {
  }

  /** The built-in class never gets into a file that commands have written. */
  lemma {:induction false} BuiltinClassIsNeverStored(commands: seq<Command>)
    ensures "native" !in ClassesOf(map[], commands)
    decreases |commands|
  {
    if commands != [] {
      var c := commands[|commands| - 1];
      BuiltinClassIsNeverStored(commands[..|commands| - 1]);
      NamesAreStoredWhole(c.name);
    }
  }

  lemma SizeBound(t: seq<Entry>)
    requires Distinct(t)
    ensures |AsMap(t)| <= |t|
  {
    MapSize(t);
    InUseIsNoLonger(t);
  }

  datatype Command = Command(name: string, weight: U32)

  function FileAfter(file: string, commands: seq<Command>): string {
    if commands == [] then file
    else
      var before := FileAfter(file, commands[..|commands| - 1]);
      var c := commands[|commands| - 1];
      CommandOutcome(before, c.name, c.weight).file
  }

  ghost function ClassesOf(m: map<string, U32>, commands: seq<Command>): map<string, U32> {
    if commands == [] then m
    else
      var before := ClassesOf(m, commands[..|commands| - 1]);
      var c := commands[|commands| - 1];
      ClassesAfter(before, c.name, c.weight)
  }

  lemma {:induction false} TextOfBlanks(t: seq<Entry>)
    requires forall i :: 0 <= i < |t| ==> t[i] == BLANK
    ensures TextOf(t) == "" && Names(t) == {}
    decreases |t|
  {
    if t != [] {
      TextOfBlanks(t[1..]);
    }
  }

  lemma {:induction false} CommandsStore(commands: seq<Command>) returns (t: seq<Entry>)
    ensures Stored(t) && FileAfter("", commands) == TextOf(t) && AsMap(t) == ClassesOf(map[], commands)
    decreases |commands|
  {
    if commands == [] {
      t := seq(CLASS_NUM, _ => BLANK);
      TextOfBlanks(t);
      assert AsMap(t) == map[];
    } else {
      var c := commands[|commands| - 1];
      var before := CommandsStore(commands[..|commands| - 1]);
      t := CommandStep(before, c.name, c.weight);
    }
  }

  /**
   After any sequence of commands on an empty file, the daemon reads exactly the map that the commands
   describe, and its weight is the exact sum of that table plus one, which is a legal weight in the pool.
   */
  lemma CommandsBuildTheMap(commands: seq<Command>) returns (t: seq<Entry>, read: seq<Entry>)
    ensures Stored(t) && FileAfter("", commands) == TextOf(t)
    ensures read == TableOf(FileAfter("", commands)) && AsMap(read) == AsMap(t) == ClassesOf(map[], commands)
    ensures ToU32(BUILTIN_WEIGHT + Total(read)) == 1 + Total(t) <= Scores.MAX_LEGAL_WEIGHT
  {
    t := CommandsStore(commands);
    TotalFits(t);
    read := ReloadedWeight(t);
  }
}
