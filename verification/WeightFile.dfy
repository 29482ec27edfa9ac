/** The host-weight file as a whole (lib/weightio.c). */
module WeightFile {
  import opened Wrappers
  import opened WeightText

  const CLASS_NUM: nat := 16                      // MAX_HOST_WEIGHT_CLASS_NUM
  const FILE_SIZE: nat := CLASS_NUM * LINE_LEN    // MAX_HOST_WEIGHT_FILE_SIZE
  const BLANK: Entry := Entry("", 0)

  // ---------------------------------------------------------------- specification

  /** The entries of a table in use. */
  function InUse(t: seq<Entry>): seq<Entry> {
    if t == [] then []
    else if t[0].classname == "" then InUse(t[1..])
    else [t[0]] + InUse(t[1..])
  }

  /** What write_hostweight_file leaves in the file. */
  function TextOf(t: seq<Entry>): string {
    if t == [] then ""
    else if t[0].classname == "" then TextOf(t[1..])
    else LineOf(t[0]) + "\n" + TextOf(t[1..])
  }

  /** Position of the first newline at or behind `i`, or the length if there is none. */
  function LineEnd(s: string, i: nat): (k: nat)
    requires i <= |s|
    ensures i <= k <= |s|
    decreases |s| - i
  {
    if i == |s| || s[i] == '\n' then i else LineEnd(s, i + 1)
  }

  /** The lines of `s` from position `i` on, without their newlines; there is always a last one. */
  function LinesFrom(s: string, i: nat): (lines: seq<string>)
    requires i <= |s|
    ensures lines != []
    decreases |s| - i
  {
    var k := LineEnd(s, i);
    [s[i..k]] + if k == |s| then [] else LinesFrom(s, k + 1)
  }

  /** The records on `lines`, at most `room` of them; other lines are skipped. */
  function Records<T>(scan: string -> Option<T>, lines: seq<string>, room: nat): (t: seq<T>)
    ensures |t| <= room
    decreases |lines|
  {
    if room == 0 || lines == [] then []
    else
      match scan(lines[0])
      case None => Records(scan, lines[1..], room)
      case Some(e) => [e] + Records(scan, lines[1..], room - 1)
  }

  /** The C string in a buffer: everything before the first NUL. */
  function CString(data: string): (s: string)
    ensures |s| <= |data|
  {
    if data == "" || data[0] == '\0' then "" else [data[0]] + CString(data[1..])
  }

  /** The text that a file leaves in the read buffer. */
  function Loaded(data: string): string {
    CString(if |data| <= FILE_SIZE then data else data[..FILE_SIZE])
  }

  function Padded<T>(t: seq<T>, blank: T, size: nat): seq<T>
    requires |t| <= size
  {
    t + seq(size - |t|, _ => blank)
  }

  // ---------------------------------------------------------------- the functions of the library

  /** read_hostweight_file: clear the table, then scan the file into it. */
  method ReadHostweightFile(data: string, table: array<Entry>)
    requires table.Length > 0
    modifies table
    ensures table[..] == Padded(Records(ScanLine, LinesFrom(Loaded(data), 0), table.Length), BLANK, table.Length)
  {
    for i := 0 to table.Length
      invariant forall j :: 0 <= j < i ==> table[j] == BLANK
    {
      table[i] := BLANK;
    }
    ScanText(ScanLine, Loaded(data), table, BLANK);
  }

  /** The scanning loop: one line after the other, until the text ends or the table is full. */
  method ScanText<T>(scan: string -> Option<T>, text: string, table: array<T>, blank: T)
    requires table.Length > 0 && forall i :: 0 <= i < table.Length ==> table[i] == blank
    modifies table
    ensures table[..] == Padded(Records(scan, LinesFrom(text, 0), table.Length), blank, table.Length)
  {
    ghost var lines := LinesFrom(text, 0);
    ghost var all := Records(scan, lines, table.Length);
    assert all[0..] == all;
    var index: nat, str: nat, last := 0, 0, false;
    while !last
      invariant index <= |all| && str <= |text|
      invariant last ==> index == |all|
      invariant !last ==>
        && index < table.Length && lines == LinesFrom(text, str)
        && all[index..] == Records(scan, lines, table.Length - index)
      invariant Filled(table[..], all, index, blank)
      decreases !last, |text| - str
    {
      index, str, last := ScanOneLine(scan, text, str, table, index, blank, all, lines);
      lines := lines[1..];
    }
    FilledIsPadded(table[..], all, blank);
  }

  method ScanOneLine<T>(scan: string -> Option<T>, text: string, str: nat, table: array<T>, index: nat, blank: T,
                        ghost all: seq<T>, ghost lines: seq<string>)
    returns (index': nat, str': nat, last: bool)
    requires str <= |text| && index < table.Length && Filled(table[..], all, index, blank)
    requires lines == LinesFrom(text, str) && all[index..] == Records(scan, lines, table.Length - index)
    modifies table
    ensures index' <= |all| && Filled(table[..], all, index', blank) && str <= str' <= |text|
    ensures last ==> index' == |all|
    ensures !last ==> str < str' && index' < table.Length && lines[1..] == LinesFrom(text, str')
    ensures !last ==> all[index'..] == Records(scan, lines[1..], table.Length - index')
  {
    var lf := LineEnd(text, str);
    NextLine(scan, lines, table.Length - index, all, index);
    index' := Store(scan(text[str..lf]), table, all, index, blank);
    last := index' >= table.Length || lf == |text|;
    str' := if last then str else lf + 1;
  }

  lemma FilledIsPadded<T>(table: seq<T>, all: seq<T>, blank: T)
    requires Filled(table, all, |all|, blank)
    ensures table == Padded(all, blank, |table|)
  {
  }

  /** The first `index` entries of a table hold the first of `all`; the others are free. */
  ghost predicate Filled<T>(table: seq<T>, all: seq<T>, index: nat, blank: T) {
    && index <= |all| <= |table|
    && (forall j :: 0 <= j < index ==> table[j] == all[j])
    && (forall j :: index <= j < |table| ==> table[j] == blank)
  }

  /** Put what was found on a line into the next free entry. */
  method Store<T>(e: Option<T>, table: array<T>, ghost all: seq<T>, index: nat, blank: T) returns (next: nat)
    requires index < table.Length && Filled(table[..], all, index, blank)
    requires e.Some? ==> index < |all| && all[index] == e.value
    modifies table
    ensures next == (if e.Some? then index + 1 else index) && Filled(table[..], all, next, blank)
  {
    next := index;
    if e.Some? {
      table[index] := e.value;
      next := index + 1;
    }
  }

  /** The next line holds the next record, if it holds one; the following lines hold the following records. */
  lemma NextLine<T>(scan: string -> Option<T>, lines: seq<string>, room: nat, all: seq<T>, n: nat)
    requires lines != [] && room > 0 && n <= |all| && all[n..] == Records(scan, lines, room)
    ensures var e := scan(lines[0]);
      if e.Some? then
        n < |all| && all[n] == e.value && all[n + 1..] == Records(scan, lines[1..], room - 1)
      else
        all[n..] == Records(scan, lines[1..], room)
  {
    if scan(lines[0]).Some? {
      assert all[n] == all[n..][0];
      assert all[n + 1..] == all[n..][1..];
    }
  }

  /** write_hostweight_file: one line for every entry in use. */
  method WriteHostweightFile(table: array<Entry>) returns (data: string)
    ensures data == TextOf(table[..])
  {
    data := "";
    ghost var rest := TextOf(table[..]);
    for index := 0 to table.Length
      invariant rest == TextOf(table[index..]) && data + rest == TextOf(table[..])
    {
      rest := NextEntry(table[index..], data, rest);
      assert table[index..][1..] == table[index + 1..];
      if table[index].classname != "" {
        data := data + (LineOf(table[index]) + "\n");
      }
    }
  }

  lemma Associative<T>(a: seq<T>, b: seq<T>, c: seq<T>)
    ensures a + (b + c) == (a + b) + c
  {
  }

  lemma NextEntry(t: seq<Entry>, data: string, left: string) returns (rest: string)
    requires t != [] && left == TextOf(t)
    ensures rest == TextOf(t[1..])
    ensures (if t[0].classname == "" then data else data + (LineOf(t[0]) + "\n")) + rest == data + left
  {
    rest := TextOf(t[1..]);
    Associative(data, LineOf(t[0]) + "\n", rest);
  }

  // ---------------------------------------------------------------- the round trip of the file

  predicate Legal(t: seq<Entry>) {
    forall e :: e in t && e.classname != "" ==> LegalName(e.classname)
  }

  lemma {:induction false} LineEndStops(s: string, i: nat, k: nat)
    requires i <= k < |s| && s[k] == '\n'
    requires forall j :: i <= j < k ==> s[j] != '\n'
    ensures LineEnd(s, i) == k
    decreases k - i
  {
    if i < k {
      LineEndStops(s, i + 1, k);
    }
  }

  predicate IsLine(l: string) {
    forall j :: 0 <= j < |l| ==> l[j] != '\n'
  }

  /** Lines one after the other, each ended by a newline. */
  function Joined(lines: seq<string>): string {
    if lines == [] then "" else lines[0] + "\n" + Joined(lines[1..])
  }

  lemma FirstOfJoined(s: string, i: nat, lines: seq<string>)
    requires i <= |s| && s[i..] == Joined(lines) && lines != []
    ensures i + |lines[0]| < |s| && s[i..i + |lines[0]|] == lines[0] && s[i + |lines[0]|] == '\n'
    ensures s[i + |lines[0]| + 1..] == Joined(lines[1..])
  {
    Cut(s, i, lines[0], "\n" + Joined(lines[1..]));
    Cut(s, i + |lines[0]|, "\n", Joined(lines[1..]));
    Associative(lines[0], "\n", Joined(lines[1..]));
  }

  lemma Cut(s: string, i: nat, x: string, y: string)
    requires i <= |s| && s[i..] == x + y
    ensures i + |x| <= |s| && s[i..i + |x|] == x && s[i + |x|..] == y
  {
    assert s[i..i + |x|] == s[i..][..|x|];
    assert s[i + |x|..] == s[i..][|x|..];
  }

  /** A line that stands at position `i`. */
  lemma FirstLine(s: string, i: nat, k: nat, line: string) returns (rest: seq<string>)
    requires i <= k < |s| && s[k] == '\n' && s[i..k] == line && IsLine(line)
    ensures rest == LinesFrom(s, k + 1) && LinesFrom(s, i) == [line] + rest
  {
    rest := LinesFrom(s, k + 1);
    assert forall j :: i <= j < k ==> s[j] == s[i..k][j - i];
    LineEndStops(s, i, k);
  }

  lemma LinesFromEnd(s: string)
    ensures LinesFrom(s, |s|) == [""]
  {
    assert s[|s|..|s|] == "";
  }

  lemma ConsSnoc<T>(t: seq<T>, x: T)
    requires t != []
    ensures [t[0]] + (t[1..] + [x]) == t + [x]
  {
  }

  /** From position `i` on, `s` consists of exactly these lines, each ended by a newline. */
  ghost predicate HasLines(s: string, i: nat, lines: seq<string>)
    requires i <= |s|
    decreases |lines|
  {
    if lines == [] then i == |s|
    else
      var k := i + |lines[0]|;
      k < |s| && s[i..k] == lines[0] && s[k] == '\n' && IsLine(lines[0]) && HasLines(s, k + 1, lines[1..])
  }

  lemma {:induction false} JoinedHasLines(s: string, i: nat, lines: seq<string>)
    requires i <= |s| && s[i..] == Joined(lines) && forall j :: 0 <= j < |lines| ==> IsLine(lines[j])
    ensures HasLines(s, i, lines)
    decreases |lines|
  {
    if lines != [] {
      FirstOfJoined(s, i, lines);
      JoinedHasLines(s, i + |lines[0]| + 1, lines[1..]);
    }
  }

  lemma {:induction false} LinesFromHasLines(s: string, i: nat, lines: seq<string>)
    requires i <= |s| && HasLines(s, i, lines)
    ensures LinesFrom(s, i) == lines + [""]
    decreases |lines|
  {
    if lines == [] {
      LinesFromEnd(s);
    } else {
      LinesFromHasLines(s, i + |lines[0]| + 1, lines[1..]);
      PushLine(s, i, i + |lines[0]|, lines);
    }
  }

  lemma PushLine(s: string, i: nat, k: nat, lines: seq<string>)
    requires lines != [] && i <= k < |s| && s[k] == '\n' && s[i..k] == lines[0] && IsLine(lines[0])
    requires LinesFrom(s, k + 1) == lines[1..] + [""]
    ensures LinesFrom(s, i) == lines + [""]
  {
    var rest := FirstLine(s, i, k, lines[0]);
    ConsSnoc(lines, "");
  }

  lemma {:induction false} RecordsOfLines<T>(scan: string -> Option<T>, lines: seq<string>, recs: seq<T>, room: nat)
    requires |lines| == |recs| <= room && scan("") == None
    requires forall j :: 0 <= j < |lines| ==> scan(lines[j]) == Some(recs[j])
    ensures Records(scan, lines + [""], room) == recs
    decreases |lines|
  {
    var all := lines + [""];
    if lines == [] {
      assert all[1..] == [];
    } else {
      assert all[0] == lines[0] && all[1..] == lines[1..] + [""];
      RecordsOfLines(scan, lines[1..], recs[1..], room - 1);
    }
  }

  function LinesOf(t: seq<Entry>): (l: seq<string>)
    ensures |l| == |t| && forall i :: 0 <= i < |t| ==> l[i] == LineOf(t[i])
  {
    if t == [] then [] else [LineOf(t[0])] + LinesOf(t[1..])
  }

  lemma {:induction false} TextIsJoined(t: seq<Entry>)
    ensures TextOf(t) == Joined(LinesOf(InUse(t)))
    decreases |t|
  {
    if t != [] {
      TextIsJoined(t[1..]);
      if t[0].classname != "" {
        assert InUse(t)[1..] == InUse(t[1..]);
        assert LinesOf(InUse(t))[1..] == LinesOf(InUse(t)[1..]);
      }
    }
  }

  lemma RecordsOfText(t: seq<Entry>, room: nat)
    requires Legal(t) && |InUse(t)| <= room
    ensures Records(ScanLine, LinesFrom(TextOf(t), 0), room) == InUse(t)
  {
    var u := InUse(t);
    InUseIsNoLonger(t);
    forall i | 0 <= i < |u|
      ensures IsLine(LinesOf(u)[i]) && ScanLine(LinesOf(u)[i]) == Some(u[i])
    {
      LineRoundTrip(u[i]);
      LineHasNoBreak(u[i]);
    }
    TextIsJoined(t);
    assert TextOf(t)[0..] == TextOf(t);
    JoinedHasLines(TextOf(t), 0, LinesOf(u));
    LinesFromHasLines(TextOf(t), 0, LinesOf(u));
    RecordsOfLines(ScanLine, LinesOf(u), u, room);
  }

  /** The file of a legal table is short and holds no NUL. */
  lemma {:induction false} TextIsPlain(t: seq<Entry>)
    requires Legal(t)
    ensures |TextOf(t)| <= |t| * (CLASSNAME_LEN + 12)
    ensures forall i :: 0 <= i < |TextOf(t)| ==> TextOf(t)[i] != '\0'
    decreases |t|
  {
    if t != [] {
      TextIsPlain(t[1..]);
      if t[0].classname != "" {
        LineRoundTrip(t[0]);
        LineHasNoBreak(t[0]);
      }
    }
  }

  lemma {:induction false} CStringOfPlain(s: string)
    requires forall i :: 0 <= i < |s| ==> s[i] != '\0'
    ensures CString(s) == s
    decreases |s|
  {
    if s != "" {
      CStringOfPlain(s[1..]);
    }
  }

  /**
   Reading back what was written gives the entries in use, in order, followed by blank entries,
   for every table of the size that the daemon and the command use.
   */
  lemma FileRoundTrip(t: seq<Entry>)
    requires Legal(t) && 0 < |t| <= CLASS_NUM
    ensures Records(ScanLine, LinesFrom(Loaded(TextOf(t)), 0), |t|) == InUse(t)
  {
    TextIsPlain(t);
    CStringOfPlain(TextOf(t));
    InUseIsNoLonger(t);
    RecordsOfText(t, |t|);
  }

  lemma {:induction false} InUseIsNoLonger(t: seq<Entry>)
    ensures |InUse(t)| <= |t|
    ensures forall e :: e in InUse(t) <==> e in t && e.classname != ""
    decreases |t|
  {
    if t != [] {
      InUseIsNoLonger(t[1..]);
      assert t == [t[0]] + t[1..];
    }
  }

  /** Writing a table and reading the file back only moves the blank entries to the end. */
  method WriteThenRead(table: array<Entry>)
    requires Legal(table[..]) && 0 < table.Length <= CLASS_NUM
    modifies table
    ensures |InUse(old(table[..]))| <= table.Length
    ensures table[..] == Padded(InUse(old(table[..])), BLANK, table.Length)
  {
    ghost var t := table[..];
    var data := WriteHostweightFile(table);
    ReadHostweightFile(data, table);
    FileRoundTrip(t);
  }

  // ---------------------------------------------------------------- any file

  /** The text is the file up to its first NUL, or up to the size of the buffer. */
  lemma LoadedIsPrefix(data: string)
    ensures var text := Loaded(data);
      && |text| <= FILE_SIZE && text <= data && (forall i :: 0 <= i < |text| ==> text[i] != '\0')
      && (|text| == |data| || |text| == FILE_SIZE || data[|text|] == '\0')
  {
    CStringIsPrefix(if |data| <= FILE_SIZE then data else data[..FILE_SIZE]);
  }

  lemma {:induction false} CStringIsPrefix(data: string)
    ensures var text := CString(data);
      && text <= data && (forall i :: 0 <= i < |text| ==> text[i] != '\0')
      && (|text| == |data| || data[|text|] == '\0')
    decreases |data|
  {
    if data != "" && data[0] != '\0' {
      CStringIsPrefix(data[1..]);
    }
  }

  /** The lines with a newline between each two of them. */
  function Unsplit(lines: seq<string>): string
    requires lines != []
  {
    if |lines| == 1 then lines[0] else lines[0] + "\n" + Unsplit(lines[1..])
  }

  /** These lines make the text `t`, and none of them holds a newline. */
  ghost predicate MakeUp(lines: seq<string>, t: string) {
    lines != [] && Unsplit(lines) == t && forall k :: 0 <= k < |lines| ==> IsLine(lines[k])
  }

  /** Any text is its lines, and no line holds a newline. */
  lemma {:induction false} LinesMakeTheText(s: string, i: nat)
    requires i <= |s|
    ensures MakeUp(LinesFrom(s, i), s[i..])
    decreases |s| - i
  {
    var k := LineEnd(s, i);
    EndedByNewline(s, i);
    if k < |s| {
      var rest := LinesFrom(s, k + 1);
      LinesMakeTheText(s, k + 1);
      OneLineMore(s, i, k, rest);
      assert LinesFrom(s, i) == [s[i..k]] + rest;
    } else {
      LastLine(s, i);
    }
  }

  lemma EndedByNewline(s: string, i: nat)
    requires i <= |s|
    ensures var k := LineEnd(s, i);
      IsLine(s[i..k]) && (k < |s| ==> s[k] == '\n')
  {
    var k := LineEnd(s, i);
    LineEndIsFirst(s, i);
    assert forall j :: 0 <= j < k - i ==> s[i..k][j] == s[i + j];
  }

  lemma LastLine(s: string, i: nat)
    requires i <= |s| && LineEnd(s, i) == |s| && IsLine(s[i..|s|])
    ensures MakeUp(LinesFrom(s, i), s[i..])
  {
    assert LinesFrom(s, i) == [s[i..|s|]];
    assert s[i..|s|] == s[i..];
  }

  lemma OneLineMore(s: string, i: nat, k: nat, rest: seq<string>)
    requires i <= k < |s| && s[k] == '\n' && IsLine(s[i..k]) && MakeUp(rest, s[k + 1..])
    ensures MakeUp([s[i..k]] + rest, s[i..])
  {
    var lines := [s[i..k]] + rest;
    assert lines[0] == s[i..k] && lines[1..] == rest;
    SplitAt(s, i, k);
    forall j | 0 <= j < |lines|
      ensures IsLine(lines[j])
    {
      assert j > 0 ==> lines[j] == rest[j - 1];
    }
  }

  lemma SplitAt(s: string, i: nat, k: nat)
    requires i <= k < |s| && s[k] == '\n'
    ensures s[i..] == s[i..k] + "\n" + s[k + 1..]
  {
    assert s[k..] == "\n" + s[k + 1..];
    assert s[i..] == s[i..k] + s[k..];
    Associative(s[i..k], "\n", s[k + 1..]);
  }

  lemma {:induction false} LineEndIsFirst(s: string, i: nat)
    requires i <= |s|
    ensures var k := LineEnd(s, i);
      (k < |s| ==> s[k] == '\n') && forall j :: i <= j < k ==> s[j] != '\n'
    decreases |s| - i
  {
    if i < |s| && s[i] != '\n' {
      LineEndIsFirst(s, i + 1);
    }
  }

  /** Lines are read one after the other into what room is left: the records of one stretch, then those of the next. */
  lemma {:induction false} RecordsOfStretches<T>(scan: string -> Option<T>, a: seq<string>, b: seq<string>, room: nat)
    ensures Records(scan, a + b, room) == Records(scan, a, room) + Records(scan, b, room - |Records(scan, a, room)|)
    decreases |a|
  {
    if a == [] {
      assert a + b == b;
    } else if room > 0 {
      assert (a + b)[0] == a[0] && (a + b)[1..] == a[1..] + b;
      RecordsOfStretches(scan, a[1..], b, if scan(a[0]).Some? then room - 1 else room);
    }
  }

  /** A line that is no record takes no room; one that is takes one entry, as long as there is one. */
  lemma RecordsOfOneLine<T>(scan: string -> Option<T>, line: string, room: nat)
    ensures Records(scan, [line], room) ==
            match scan(line)
            case None => []
            case Some(e) => if room > 0 then [e] else []
  {
    assert [line][1..] == [];
  }
}
