/** Scanning and printing of one line of the host-weight file: what sscanf("%s %d") and sprintf("%s %d\n") do. */
module WeightText {
  import opened MachineInts
  import opened Wrappers

  const CLASSNAME_LEN: nat := 65          // MAX_HOST_WEIGHT_CLASSNAME_LEN, with the terminator
  const LINE_LEN: nat := 65 + 8192        // MAX_HOST_WEIGHT_FILE_LINELEN

  datatype Entry = Entry(classname: string, weight: U32)

  // ---------------------------------------------------------------- printing

  function Digit(d: nat): (c: char)
    requires d < 10
    ensures '0' <= c <= '9' && (c as int) - ('0' as int) == d
  {
    ('0' as int + d) as char
  }

  function Decimal(n: nat): (s: string)
    ensures |s| > 0 && forall i :: 0 <= i < |s| ==> '0' <= s[i] <= '9'
  {
    if n < 10 then [Digit(n)] else Decimal(n / 10) + [Digit(n % 10)]
  }

  /** "%d" */
  function PrintInt(x: int): string {
    if x < 0 then "-" + Decimal(-x) else Decimal(x)
  }

  /** The text of one entry, without its newline; the weight is printed as a signed number. */
  function LineOf(e: Entry): string {
    e.classname + " " + PrintInt(ToS32(e.weight))
  }

  // ---------------------------------------------------------------- scanning

  predicate IsBlank(c: char) {
    c == ' ' || '\t' <= c <= '\r'
  }

  predicate IsDigit(c: char) {
    '0' <= c <= '9'
  }

  /** First position at or behind `i` that does not hold a blank, or the length. */
  function SkipBlanks(s: string, i: nat): (k: nat)
    requires i <= |s|
    ensures i <= k <= |s|
    decreases |s| - i
  {
    if i == |s| || !IsBlank(s[i]) then i else SkipBlanks(s, i + 1)
  }

  /** First position at or behind `i` that holds a blank, or the length. */
  function SkipWord(s: string, i: nat): (k: nat)
    requires i <= |s|
    ensures i <= k <= |s|
    decreases |s| - i
  {
    if i == |s| || IsBlank(s[i]) then i else SkipWord(s, i + 1)
  }

  /** First position at or behind `i` that does not hold a digit, or the length. */
  function SkipDigits(s: string, i: nat): (k: nat)
    requires i <= |s|
    ensures i <= k <= |s|
    decreases |s| - i
  {
    if i == |s| || !IsDigit(s[i]) then i else SkipDigits(s, i + 1)
  }

  /** The number that the digits in `i..j` denote. */
  function Value(s: string, i: nat, j: nat): int
    requires i <= j <= |s|
    decreases j
  {
    if i == j then 0 else 10 * Value(s, i, j - 1) + (s[j - 1] as int - '0' as int)
  }

  /** "%d" from position `i` on: blanks, an optional sign, at least one digit. */
  function ScanInt(s: string, i: nat): Option<int>
    requires i <= |s|
  {
    var j := SkipBlanks(s, i);
    var start := if j < |s| && (s[j] == '-' || s[j] == '+') then j + 1 else j;
    var k := SkipDigits(s, start);
    if k == start then None
    else Some(if s[j] == '-' then -Value(s, start, k) else Value(s, start, k))
  }

  /** The entry of a line that is short enough, has a word and a number, and whose word fits a class name. */
  function ScanLine(line: string): Option<Entry> {
    var j := SkipBlanks(line, 0);
    var k := SkipWord(line, j);
    if |line| >= LINE_LEN || k == j then None
    else
      match ScanInt(line, k)
      case None => None
      case Some(x) => if k - j < CLASSNAME_LEN then Some(Entry(line[j..k], ToU32(x))) else None
  }

  // ---------------------------------------------------------------- the round trip of one line

  /** A class name as the command accepts it: 1 to 64 printable characters without a blank. */
  predicate LegalName(name: string) {
    0 < |name| < CLASSNAME_LEN && forall i :: 0 <= i < |name| ==> '!' <= name[i] <= '~'
  }

  lemma {:induction false} SkipWordStops(s: string, i: nat, k: nat)
    requires i <= k <= |s| && (k == |s| || IsBlank(s[k]))
    requires forall j :: i <= j < k ==> !IsBlank(s[j])
    ensures SkipWord(s, i) == k
    decreases k - i
  {
    if i < k {
      SkipWordStops(s, i + 1, k);
    }
  }

  lemma {:induction false} SkipDigitsToEnd(s: string, i: nat)
    requires i <= |s| && forall j :: i <= j < |s| ==> IsDigit(s[j])
    ensures SkipDigits(s, i) == |s|
    decreases |s| - i
  {
    if i < |s| {
      SkipDigitsToEnd(s, i + 1);
    }
  }

  /** The digits that are printed for a number denote that number. */
  lemma {:induction false} ValueOfDecimal(n: nat, s: string, i: nat, j: nat)
    requires i <= j <= |s| && s[i..j] == Decimal(n)
    ensures Value(s, i, j) == n
    decreases n
  {
    assert s[j - 1] == s[i..j][j - i - 1];
    if n < 10 {
      assert Value(s, i, j - 1) == 0;
    } else {
      assert s[i..j][..j - 1 - i] == Decimal(n / 10);
      assert s[i..j - 1] == s[i..j][..j - 1 - i];
      ValueOfDecimal(n / 10, s, i, j - 1);
    }
  }

  lemma {:induction false} DecimalLength(n: nat, digits: nat, bound: nat)
    requires digits > 0 && n < bound && bound == Power10(digits)
    ensures |Decimal(n)| <= digits
    decreases digits
  {
    if n >= 10 {
      DecimalLength(n / 10, digits - 1, Power10(digits - 1));
    }
  }

  function Power10(k: nat): (p: nat)
    ensures p >= 1
  {
    if k == 0 then 1 else 10 * Power10(k - 1)
  }

  /** Digits at the end of a line are scanned as a whole. */
  lemma DigitsScanned(s: string, start: nat, n: nat)
    requires start <= |s| && s[start..] == Decimal(n)
    ensures start < |s| && IsDigit(s[start]) && SkipDigits(s, start) == |s| && Value(s, start, |s|) == n
  {
    assert forall j :: start <= j < |s| ==> s[j] == s[start..][j - start];
    SkipDigitsToEnd(s, start);
    assert s[start..|s|] == s[start..];
    ValueOfDecimal(n, s, start, |s|);
  }

  lemma PrintedLength(x: int)
    requires -TWO_31 <= x < TWO_31
    ensures |PrintInt(x)| <= 11
  {
    assert Power10(5) == 100_000;
    DecimalLength(if x < 0 then -x else x, 10, Power10(10));
  }

  /** A number printed behind a blank is scanned back. */
  lemma ScanOfPrint(s: string, n: nat, x: int)
    requires n < |s| && s[n] == ' ' && s[n + 1..] == PrintInt(x)
    ensures ScanInt(s, n) == Some(x)
  {
    var j := n + 1;
    assert SkipBlanks(s, n) == SkipBlanks(s, j);
    if x < 0 {
      MinusAt(s, j, Decimal(-x));
      DigitsScanned(s, j + 1, -x);
    } else {
      DigitsScanned(s, j, x);
    }
  }

  lemma MinusAt(s: string, j: nat, rest: string)
    requires j <= |s| && s[j..] == "-" + rest
    ensures j < |s| && s[j] == '-' && s[j + 1..] == rest
  {
    assert s[j] == s[j..][0];
    assert s[j + 1..] == s[j..][1..];
  }

  lemma ScanOfParts(line: string, n: nat, x: int)
    requires n < |line| < LINE_LEN && LegalName(line[..n])
    requires line[n] == ' ' && line[n + 1..] == PrintInt(x)
    ensures ScanLine(line) == Some(Entry(line[..n], ToU32(x)))
  {
    ScanOfPrint(line, n, x);
    assert forall i :: 0 <= i < n ==> line[i] == line[..n][i];
    SkipWordStops(line, 0, n);
    assert SkipBlanks(line, 0) == 0;
    assert line[0..n] == line[..n];
  }

  lemma SignedAndBack(w: U32)
    ensures ToU32(ToS32(w)) == w
  {
    ModShift(w, (ToS32(w) - w) / TWO_32);
  }

  /** A printed entry is scanned back unchanged, whatever its weight. */
  lemma LineRoundTrip(e: Entry)
    requires LegalName(e.classname)
    ensures ScanLine(LineOf(e)) == Some(e)
    ensures |LineOf(e)| <= CLASSNAME_LEN + 11
  {
    var n := |e.classname|;
    SignedAndBack(e.weight);
    PrintedLength(ToS32(e.weight));
    assert LineOf(e)[..n] == e.classname;
    assert LineOf(e)[n + 1..] == PrintInt(ToS32(e.weight));
    ScanOfParts(LineOf(e), n, ToS32(e.weight));
  }

  /** No character of a printed entry ends a line or a C string. */
  lemma LineHasNoBreak(e: Entry)
    requires LegalName(e.classname)
    ensures forall i :: 0 <= i < |LineOf(e)| ==> LineOf(e)[i] != '\n' && LineOf(e)[i] != '\0'
  {
  }

  // ---------------------------------------------------------------- lines that somebody else has written

  /** The characters that isspace accepts. */
  lemma SpaceCharacters(c: char)
    ensures IsBlank(c) <==> c in {' ', '\t', '\n', '\U{0B}', '\U{0C}', '\r'}
  {
  }

  predicate Word(s: string) {
    s != "" && forall i :: 0 <= i < |s| ==> !IsBlank(s[i])
  }

  lemma {:induction false} SkipBlanksStops(s: string, i: nat, k: nat)
    requires i <= k <= |s| && (k == |s| || !IsBlank(s[k]))
    requires forall j :: i <= j < k ==> IsBlank(s[j])
    ensures SkipBlanks(s, i) == k
    decreases k - i
  {
    if i < k {
      SkipBlanksStops(s, i + 1, k);
    }
  }

  lemma {:induction false} SkipDigitsStops(s: string, i: nat, k: nat)
    requires i <= k <= |s| && (k == |s| || !IsDigit(s[k]))
    requires forall j :: i <= j < k ==> IsDigit(s[j])
    ensures SkipDigits(s, i) == k
    decreases k - i
  {
    if i < k {
      SkipDigitsStops(s, i + 1, k);
    }
  }

  /** A number at `d..e` behind blanks at `k..m`, with or without a sign at `m`, whatever follows its digits. */
  ghost predicate NumberAt(s: string, k: nat, m: nat, d: nat, e: nat) {
    && k <= m <= d < e <= |s|
    && (forall i :: k <= i < m ==> IsBlank(s[i]))
    && (d == m || (d == m + 1 && s[m] in {'+', '-'}))
    && (forall i :: d <= i < e ==> IsDigit(s[i]))
    && (e < |s| ==> !IsDigit(s[e]))
  }

  lemma ScanOfNumber(s: string, k: nat, m: nat, d: nat, e: nat)
    requires NumberAt(s, k, m, d, e)
    ensures ScanInt(s, k) == Some(if s[m] == '-' then -Value(s, d, e) else Value(s, d, e))
  {
    assert IsDigit(s[d]);
    SkipBlanksStops(s, k, m);
    SkipDigitsStops(s, d, e);
  }

  /**
   Any line with a word at `j..k` and a number behind it, with any blanks before each and anything behind the number:
   it is scanned if it is short enough and the word fits a class name, and skipped otherwise.
   */
  lemma ScanOfAnyLine(line: string, j: nat, k: nat, m: nat, d: nat, e: nat)
    requires j < k < m && NumberAt(line, k, m, d, e)
    requires (forall i :: 0 <= i < j ==> IsBlank(line[i])) && (forall i :: j <= i < k ==> !IsBlank(line[i]))
    ensures var x := if line[m] == '-' then -Value(line, d, e) else Value(line, d, e);
      ScanLine(line) ==
        if |line| < 65 + 8192 && k - j <= 64 then Some(Entry(line[j..k], ToU32(x))) else None
  {
    SkipBlanksStops(line, 0, j);
    SkipWordStops(line, j, k);
    ScanOfNumber(line, k, m, d, e);
  }

  /** Every scanned entry has a word of 1 to 64 characters that stands in the line, with a digit somewhere behind it. */
  lemma ScannedEntries(line: string) returns (j: nat, d: nat)
    requires ScanLine(line).Some?
    ensures var name := ScanLine(line).value.classname;
      && 1 <= |name| <= 64 && Word(name) && |line| < 65 + 8192
      && j + |name| <= d < |line| && line[j..j + |name|] == name && IsDigit(line[d])
  {
    j := SkipBlanks(line, 0);
    var k := SkipWord(line, j);
    WordHasNoBlank(line, j);
    var b := SkipBlanks(line, k);
    d := if b < |line| && (line[b] == '-' || line[b] == '+') then b + 1 else b;
  }

  lemma {:induction false} WordHasNoBlank(s: string, i: nat)
    requires i <= |s|
    ensures forall j :: i <= j < SkipWord(s, i) ==> !IsBlank(s[j])
    decreases |s| - i
  {
    if i < |s| && !IsBlank(s[i]) {
      WordHasNoBlank(s, i + 1);
    }
  }
}
