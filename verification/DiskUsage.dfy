/** Parsing the output of df, with strconv.Atoi, and looking up a mount point. */
module DiskUsage {
  import opened Collections
  import opened GoStrings

  datatype DfRow = DfRow(filesystem: string, size: string, used: string, avail: string, use: int, mountedOn: string)

  /** Panicked: a line of spaces alone has no first field. `BadHeader` keeps the rows before it. */
  datatype DfResult = Rows(rows: seq<DfRow>) | BadHeader(rows: seq<DfRow>) | BadRow | Panicked

  // ----- strconv.Atoi, errors ignored

  const MAX_UINT64 := 0xFFFF_FFFF_FFFF_FFFF
  const MAX_INT64 := 0x7FFF_FFFF_FFFF_FFFF

  datatype Scan = Value(n: nat) | OutOfRange | Malformed

  /** Digits after a value of n so far; a value too large ends the scan where it is noticed. */
  function ScanDigits(s: string, n: nat): Scan {
    if s == "" then Value(n)
    else if !IsDigit(s[0]) then Malformed
    else
      var next := n * 10 + (s[0] as int - '0' as int);
      if next > MAX_UINT64 then OutOfRange else ScanDigits(s[1..], next)
  }

  /** The integer of strconv.Atoi: 0 for malformed text, the nearest bound out of range. */
  function Atoi(s: string): (n: int)
    ensures -MAX_INT64 - 1 <= n <= MAX_INT64
  {
    if s == "" then 0
    else
      var negative := s[0] == '-';
      var digits := if s[0] == '-' || s[0] == '+' then s[1..] else s;
      match (if digits == "" then Malformed else ScanDigits(digits, 0))
      case Malformed => 0
      case OutOfRange => if negative then -MAX_INT64 - 1 else MAX_INT64
      case Value(n) =>
        var v: int := n;
        if negative then (if v > MAX_INT64 + 1 then -MAX_INT64 - 1 else -v)
        else if v > MAX_INT64 then MAX_INT64
        else v
  }

  lemma {:induction false} ScanConcat(a: string, c: char, n: nat)
    requires ScanDigits(a, n).Value? && IsDigit(c)
    ensures var next := ScanDigits(a, n).n * 10 + (c as int - '0' as int);
      ScanDigits(a + [c], n) == if next > MAX_UINT64 then OutOfRange else Value(next)
  {
    if a != "" {
      var next := n * 10 + (a[0] as int - '0' as int);
      ScanConcat(a[1..], c, next);
      assert (a + [c])[1..] == a[1..] + [c];
    } else {
      assert (a + [c])[1..] == "";
    }
  }

  lemma {:induction false} ScanPastRange(a: string, c: char, n: nat)
    requires ScanDigits(a, n).OutOfRange?
    ensures ScanDigits(a + [c], n).OutOfRange?
  {
    var next := n * 10 + (a[0] as int - '0' as int);
    if next <= MAX_UINT64 {
      ScanPastRange(a[1..], c, next);
      assert (a + [c])[1..] == a[1..] + [c];
    }
  }

  lemma {:induction false} ScanStops(a: string, c: char, rest: string, n: nat)
    requires ScanDigits(a, n).Value? && !IsDigit(c)
    ensures ScanDigits(a + [c] + rest, n).Malformed?
  {
    var s := a + [c] + rest;
    if a != "" {
      ScanStops(a[1..], c, rest, n * 10 + (a[0] as int - '0' as int));
      assert s[1..] == a[1..] + [c] + rest;
    } else {
      assert s[0] == c;
    }
  }

  lemma {:induction false} ScanDecimal(n: nat)
    ensures ScanDigits(Decimal(n), 0) == if n <= MAX_UINT64 then Value(n) else OutOfRange
  {
    var c := ('0' as int + n % 10) as char;
    if n >= 10 {
      ScanDecimal(n / 10);
      if n / 10 <= MAX_UINT64 {
        ScanConcat(Decimal(n / 10), c, 0);
      } else {
        ScanPastRange(Decimal(n / 10), c, 0);
      }
    } else {
      ScanConcat("", c, 0);
      assert "" + [c] == Decimal(n);
    }
  }

  /** Every number, signed or not, reads as itself or as the nearest bound. */
  lemma AtoiNumber(n: nat)
    ensures Atoi(Decimal(n)) == Atoi("+" + Decimal(n)) == if n > MAX_INT64 then MAX_INT64 else n
    ensures if n > MAX_INT64 + 1 then Atoi("-" + Decimal(n)) == -MAX_INT64 - 1 else Atoi("-" + Decimal(n)) + n == 0
  {
    ScanDecimal(n);
    DecimalDigits(n);
    assert IsDigit(Decimal(n)[0]);
    assert ("+" + Decimal(n))[1..] == ("-" + Decimal(n))[1..] == Decimal(n);
  }

  /** Text that is no number reads as 0: a sign or nothing, then nothing or a number that fits, and then a
      character that is no digit. */
  lemma AtoiMalformed(sign: string, digits: string, c: char, rest: string)
    requires sign in ["", "+", "-"] && !IsDigit(c)
    requires digits == "" || exists n: nat | n <= MAX_UINT64 :: digits == Decimal(n)
    requires sign == "" && digits == "" ==> c != '+' && c != '-'
    ensures Atoi(sign + digits + [c] + rest) == 0
    ensures Atoi(sign) == 0
  {
    if digits != "" {
      var n: nat :| n <= MAX_UINT64 && digits == Decimal(n);
      ScanDecimal(n);
      DecimalDigits(n);
      assert IsDigit(digits[0]);
    }
    ScanStops(digits, c, rest, 0);
    var s, t := sign + digits + [c] + rest, digits + [c] + rest;
    if sign == "" {
      assert s == t && t[0] == if digits == "" then c else digits[0];
    } else {
      assert s[0] == sign[0] && s[1..] == t;
    }
  }

  /** Printing and reading a number in range. */
  lemma AtoiDecimal(n: nat)
    requires n <= MAX_INT64
    ensures Atoi(Decimal(n)) == n
    ensures IsWord(Decimal(n)) && '%' !in Decimal(n)
  {
    ScanDecimal(n);
    DecimalDigits(n);
    assert IsDigit(Decimal(n)[0]);
  }

  // ----- rows

  function RowOf(fields: seq<string>): DfRow
    requires |fields| == 6
  {
    DfRow(TrimSpace(fields[0]), TrimSpace(fields[1]), TrimSpace(fields[2]), TrimSpace(fields[3]),
          Atoi(TrimSpace(RemoveChar(fields[4], '%'))), TrimSpace(fields[5]))
  }

  method ParseDfRow(row: seq<string>, dfHeader: seq<string>) returns (r: Option<DfRow>)
    requires |dfHeader| == 7
    ensures r == if |row| == 6 then Some(RowOf(row)) else None
  {
    if |row| != |dfHeader| - 1 {
      return None;
    }
    r := Some(DfRow(TrimSpace(row[0]), TrimSpace(row[1]), TrimSpace(row[2]), TrimSpace(row[3]),
                    Atoi(TrimSpace(RemoveChar(row[4], '%'))), TrimSpace(row[5])));
  }

  /** What one line adds: nothing, a row, or the end of parsing. */
  datatype Line = Skip | Row(row: DfRow) | HeaderError | RowError | Blank

  function Classify(line: string, headers: seq<string>): Line
    requires |headers| == 7
  {
    var fields := Fields(TrimSpace(line));
    if line == "" then Skip
    else if fields == [] then Blank
    else if fields[0] == headers[0] then (if fields == headers then Skip else HeaderError)
    else if |fields| == 6 then Row(RowOf(fields))
    else RowError
  }

  function Classifier(headers: seq<string>): string -> Line
    requires |headers| == 7
  {
    (line: string) => Classify(line, headers)
  }

  function ClassifyAll(lines: seq<string>, headers: seq<string>): seq<Line>
    requires |headers| == 7
  {
    Map(Classifier(headers), lines)
  }

  /** The rows among classified lines, in order. */
  function RowsIn(ls: seq<Line>): seq<DfRow> {
    if ls == [] then []
    else
      var n := |ls| - 1;
      RowsIn(ls[..n]) + if ls[n].Row? then [ls[n].row] else []
  }

  predicate Fine(line: Line) {
    line.Skip? || line.Row?
  }

  predicate AllFine(ls: seq<Line>) {
    forall k :: 0 <= k < |ls| ==> Fine(ls[k])
  }

  /** Line k is the first that stops parsing, with this result. */
  ghost predicate StopsAt(ls: seq<Line>, k: int, r: DfResult) {
    && 0 <= k < |ls| && AllFine(ls[..k]) && !Fine(ls[k])
    && r == if ls[k].HeaderError? then BadHeader(RowsIn(ls[..k])) else if ls[k].RowError? then BadRow else Panicked
  }

  /** The result for these lines: the rows, if no line stops parsing; otherwise the first line that
      does decides. */
  ghost predicate Decides(ls: seq<Line>, r: DfResult) {
    if AllFine(ls) then r == Rows(RowsIn(ls)) else exists k :: StopsAt(ls, k, r)
  }

  method ParseDfLine(line: string, dfHeaders: seq<string>) returns (r: Line)
    requires |dfHeaders| == 7
    ensures r == Classify(line, dfHeaders)
  {
    if |line| == 0 {
      return Skip;
    }
    var ds := Fields(TrimSpace(line));
    if |ds| == 0 {
      return Blank;
    }
    if ds[0] == dfHeaders[0] {
      if ds != dfHeaders {
        return HeaderError;
      }
      return Skip;
    }
    var row := ParseDfRow(ds, dfHeaders);
    if row.None? {
      return RowError;
    }
    r := Row(row.value);
  }

  lemma OneMore(ls: seq<Line>, i: nat)
    requires i < |ls|
    ensures RowsIn(ls[..i+1]) == RowsIn(ls[..i]) + if ls[i].Row? then [ls[i].row] else []
    ensures AllFine(ls[..i]) && Fine(ls[i]) ==> AllFine(ls[..i+1])
  {
    assert ls[..i+1][..i] == ls[..i];
  }

  lemma StopDecides(ls: seq<Line>, i: nat, r: DfResult)
    requires StopsAt(ls, i, r)
    ensures Decides(ls, r)
  {
  }

  // ----- the result, in terms of the words on each line

  /** The line is empty or the expected header. */
  predicate IsPassedOver(line: string, headers: seq<string>) {
    line == "" || Fields(line) == headers
  }

  predicate IsRowLine(line: string, headers: seq<string>)
    requires |headers| == 7
  {
    |Fields(line)| == 6 && Fields(line)[0] != headers[0]
  }

  /** Line k is read: every line before it is passed over or is a row. */
  predicate IsRead(lines: seq<string>, headers: seq<string>, k: int)
    requires |headers| == 7
  {
    && 0 <= k < |lines|
    && forall j :: 0 <= j < k ==> IsPassedOver(lines[j], headers) || IsRowLine(lines[j], headers)
  }

  /** It begins like the header and is not the header. */
  predicate IsWrongHeader(line: string, headers: seq<string>)
    requires |headers| == 7
  {
    Fields(line) != [] && Fields(line)[0] == headers[0] && Fields(line) != headers
  }

  predicate HasColumns(row: DfRow, words: seq<string>) {
    && |words| == 6 && row.filesystem == words[0] && row.size == words[1] && row.used == words[2]
    && row.avail == words[3] && row.use == Atoi(RemoveChar(words[4], '%')) && row.mountedOn == words[5]
  }

  /** The places of the row lines. */
  ghost predicate PlacesOfRows(lines: seq<string>, headers: seq<string>, at: seq<nat>)
    requires |headers| == 7
  {
    Increasing(at, |lines|) && forall i :: 0 <= i < |lines| ==> (i in at <==> IsRowLine(lines[i], headers))
  }

  /** The rows have the columns of the lines at these places. */
  ghost predicate ColumnsAt(lines: seq<string>, rows: seq<DfRow>, at: seq<nat>)
    requires forall a :: 0 <= a < |at| ==> at[a] < |lines|
  {
    |at| == |rows| && forall a :: 0 <= a < |at| ==> HasColumns(rows[a], Fields(lines[at[a]]))
  }

  /** `rows` holds the columns of the row lines, in order; `at` says which these are. */
  ghost predicate RowsAt(lines: seq<string>, headers: seq<string>, rows: seq<DfRow>, at: seq<nat>)
    requires |headers| == 7
  {
    PlacesOfRows(lines, headers, at) && ColumnsAt(lines, rows, at)
  }

  ghost predicate AreRowsOf(lines: seq<string>, headers: seq<string>, rows: seq<DfRow>)
    requires |headers| == 7
  {
    exists at :: RowsAt(lines, headers, rows, at)
  }

  /** What the class of a line says of its words. */
  predicate Agrees(line: string, headers: seq<string>, kind: Line)
    requires |headers| == 7
  {
    && (kind.Skip? <==> IsPassedOver(line, headers))
    && (kind.Row? <==> IsRowLine(line, headers))
    && (kind.Row? ==> HasColumns(kind.row, Fields(line)))
    && (kind.HeaderError? <==> IsWrongHeader(line, headers))
    && (kind.RowError? <==> Fields(line) != [] && Fields(line)[0] != headers[0] && |Fields(line)| != 6)
    && (kind.Blank? <==> line != "" && Fields(line) == [])
  }

  lemma {:induction false} RemoveCharKeepsWords(w: string, c: char)
    requires forall k :: 0 <= k < |w| ==> !IsSpace(w[k])
    ensures RemoveChar(w, c) == "" || IsWord(RemoveChar(w, c))
  {
    if w != "" {
      RemoveCharKeepsWords(w[1..], c);
    }
  }

  lemma RowHasColumns(words: seq<string>)
    requires |words| == 6 && forall w :: w in words ==> IsWord(w)
    ensures HasColumns(RowOf(words), words)
  {
    assert forall k :: 0 <= k < 6 ==> words[k] in words;
    RemoveCharKeepsWords(words[4], '%');
    TrimWord(words[0]);
    TrimWord(words[1]);
    TrimWord(words[2]);
    TrimWord(words[3]);
    TrimWord(RemoveChar(words[4], '%'));
    TrimWord(words[5]);
  }

  lemma ClassifyAgrees(line: string, headers: seq<string>)
    requires |headers| == 7
    ensures Agrees(line, headers, Classify(line, headers))
  {
    FieldsTrim(line);
    FieldsAreWords(line);
    if |Fields(line)| == 6 {
      RowHasColumns(Fields(line));
    }
  }

  ghost predicate AllAgree(lines: seq<string>, headers: seq<string>, ls: seq<Line>)
    requires |headers| == 7
  {
    |ls| == |lines| && forall k :: 0 <= k < |lines| ==> Agrees(lines[k], headers, ls[k])
  }

  lemma ClassesAgree(lines: seq<string>, headers: seq<string>)
    requires |headers| == 7
    ensures AllAgree(lines, headers, ClassifyAll(lines, headers))
  {
    forall k | 0 <= k < |lines|
      ensures Agrees(lines[k], headers, ClassifyAll(lines, headers)[k])
    {
      ClassifyAgrees(lines[k], headers);
    }
  }

  lemma OneMorePlace(lines: seq<string>, headers: seq<string>, at: seq<nat>, line: string)
    requires |headers| == 7 && PlacesOfRows(lines, headers, at)
    ensures PlacesOfRows(lines + [line], headers, if IsRowLine(line, headers) then at + [|lines|] else at)
  {
    var more := if IsRowLine(line, headers) then at + [|lines|] else at;
    forall i | 0 <= i < |lines + [line]|
      ensures i in more <==> IsRowLine((lines + [line])[i], headers)
    {
      if i < |lines| {
        assert i in at <==> IsRowLine(lines[i], headers);
      } else {
        assert i !in at;
      }
    }
  }

  lemma OneMoreRow(lines: seq<string>, rows: seq<DfRow>, at: seq<nat>, line: string, row: DfRow)
    requires (forall a :: 0 <= a < |at| ==> at[a] < |lines|) && ColumnsAt(lines, rows, at)
    requires HasColumns(row, Fields(line))
    ensures ColumnsAt(lines + [line], rows + [row], at + [|lines|])
  {
    forall a | 0 <= a < |at|
      ensures HasColumns((rows + [row])[a], Fields((lines + [line])[at[a]]))
    {
      assert (lines + [line])[at[a]] == lines[at[a]];
    }
  }

  lemma NoMoreRow(lines: seq<string>, rows: seq<DfRow>, at: seq<nat>, line: string)
    requires (forall a :: 0 <= a < |at| ==> at[a] < |lines|) && ColumnsAt(lines, rows, at)
    ensures ColumnsAt(lines + [line], rows, at)
  {
    forall a | 0 <= a < |at|
      ensures HasColumns(rows[a], Fields((lines + [line])[at[a]]))
    {
      assert (lines + [line])[at[a]] == lines[at[a]];
    }
  }

  lemma {:induction false} RowsAreRowsOf(lines: seq<string>, headers: seq<string>, ls: seq<Line>)
    returns (at: seq<nat>)
    requires |headers| == 7 && AllAgree(lines, headers, ls)
    ensures RowsAt(lines, headers, RowsIn(ls), at)
  {
    if ls == [] {
      at := [];
    } else {
      var n := |ls| - 1;
      at := RowsAreRowsOf(lines[..n], headers, ls[..n]);
      assert lines == lines[..n] + [lines[n]];
      assert Agrees(lines[n], headers, ls[n]);
      OneMorePlace(lines[..n], headers, at, lines[n]);
      if ls[n].Row? {
        OneMoreRow(lines[..n], RowsIn(ls[..n]), at, lines[n], ls[n].row);
        at := at + [n];
      } else {
        NoMoreRow(lines[..n], RowsIn(ls[..n]), at, lines[n]);
      }
    }
  }

  /** What each result means, in terms of the lines. */
  ghost predicate IsResult(lines: seq<string>, headers: seq<string>, r: DfResult)
    requires |headers| == 7
  {
    match r
    case Rows(rows) =>
      && (forall k :: 0 <= k < |lines| ==> IsPassedOver(lines[k], headers) || IsRowLine(lines[k], headers))
      && AreRowsOf(lines, headers, rows)
    case BadHeader(rows) =>
      exists k :: IsRead(lines, headers, k) && IsWrongHeader(lines[k], headers) && AreRowsOf(lines[..k], headers, rows)
    case BadRow =>
      exists k :: IsRead(lines, headers, k) && Fields(lines[k]) != [] && Fields(lines[k])[0] != headers[0]
                  && |Fields(lines[k])| != 6
    case Panicked =>
      exists k :: IsRead(lines, headers, k) && lines[k] != "" && Fields(lines[k]) == []
  }

  lemma DecidedIsResult(lines: seq<string>, headers: seq<string>, ls: seq<Line>, r: DfResult)
    requires |headers| == 7 && AllAgree(lines, headers, ls) && Decides(ls, r)
    ensures IsResult(lines, headers, r)
  {
    if AllFine(ls) {
      var at := RowsAreRowsOf(lines, headers, ls);
      assert forall k :: 0 <= k < |lines| ==> Agrees(lines[k], headers, ls[k]) && Fine(ls[k]);
    } else {
      var k :| StopsAt(ls, k, r);
      assert Agrees(lines[k], headers, ls[k]);
      forall j | 0 <= j < k
        ensures IsPassedOver(lines[j], headers) || IsRowLine(lines[j], headers)
      {
        assert Agrees(lines[j], headers, ls[j]) && Fine(ls[..k][j]);
      }
      assert IsRead(lines, headers, k);
      if r.BadHeader? {
        var at := RowsAreRowsOf(lines[..k], headers, ls[..k]);
      }
    }
  }

  lemma SomePlace(at: seq<nat>, n: nat)
    requires Increasing(at, n) && at != []
    ensures n > 0
  {
    assert at[0] < n;
  }

  lemma {:induction false} SamePlaces(at: seq<nat>, other: seq<nat>, n: nat)
    requires Increasing(at, n) && Increasing(other, n) && forall i: nat :: i < n ==> (i in at <==> i in other)
    ensures at == other
    decreases n
  {
    if n == 0 {
      if at != [] {
        SomePlace(at, n);
      }
      if other != [] {
        SomePlace(other, n);
      }
    } else {
      SamePlaces(PlacesBelow(at, n - 1), PlacesBelow(other, n - 1), n - 1);
    }
  }

  /** The places but n, which is the last if it is there. */
  function PlacesBelow(at: seq<nat>, n: nat): (r: seq<nat>)
    requires Increasing(at, n + 1)
    ensures Increasing(r, n) && at == r + (if n in at then [n] else [])
    ensures forall i: nat :: i < n ==> (i in r <==> i in at)
  {
    if at != [] && at[|at|-1] == n then at[..|at|-1] else at
  }

  lemma RowsUnique(lines: seq<string>, headers: seq<string>, rows: seq<DfRow>, other: seq<DfRow>)
    requires |headers| == 7 && AreRowsOf(lines, headers, rows) && AreRowsOf(lines, headers, other)
    ensures rows == other
  {
    var at :| RowsAt(lines, headers, rows, at);
    var too :| RowsAt(lines, headers, other, too);
    SamePlaces(at, too, |lines|);
    forall a | 0 <= a < |rows|
      ensures rows[a] == other[a]
    {
      assert HasColumns(rows[a], Fields(lines[at[a]])) && HasColumns(other[a], Fields(lines[at[a]]));
    }
  }

  /** These are the exact conditions: lines have only one result. */
  lemma ResultUnique(lines: seq<string>, headers: seq<string>, r: DfResult, other: DfResult)
    requires |headers| == 7 && IsResult(lines, headers, r) && IsResult(lines, headers, other)
    ensures r == other
  {
    if r.Rows? && other.Rows? {
      RowsUnique(lines, headers, r.rows, other.rows);
    } else if r.BadHeader? && other.BadHeader? {
      var k :| IsRead(lines, headers, k) && IsWrongHeader(lines[k], headers) && AreRowsOf(lines[..k], headers, r.rows);
      var j :| IsRead(lines, headers, j) && IsWrongHeader(lines[j], headers)
               && AreRowsOf(lines[..j], headers, other.rows);
      RowsUnique(lines[..k], headers, r.rows, other.rows);
    }
  }

  method ParseDfResult(output: string, dfHeaders: seq<string>) returns (r: DfResult)
    requires |dfHeaders| == 7
    ensures Decides(ClassifyAll(Split(output, '\n'), dfHeaders), r)
    ensures IsResult(Split(output, '\n'), dfHeaders, r)
  {
    var lines := Split(output, '\n');
    ghost var classes := ClassifyAll(lines, dfHeaders);
    ClassesAgree(lines, dfHeaders);
    var result: seq<DfRow> := [];
    for i := 0 to |lines|
      invariant result == RowsIn(classes[..i]) && AllFine(classes[..i])
    {
      var line := ParseDfLine(lines[i], dfHeaders);
      OneMore(classes, i);
      match line
      case Skip =>
      case Row(row) =>
        result := result + [row];
      case HeaderError =>
        StopDecides(classes, i, BadHeader(result));
        DecidedIsResult(lines, dfHeaders, classes, BadHeader(result));
        return BadHeader(result);
      case RowError =>
        StopDecides(classes, i, BadRow);
        DecidedIsResult(lines, dfHeaders, classes, BadRow);
        return BadRow;
      case Blank =>
        StopDecides(classes, i, Panicked);
        DecidedIsResult(lines, dfHeaders, classes, Panicked);
        return Panicked;
    }
    assert classes[..|lines|] == classes;
    r := Rows(result);
    DecidedIsResult(lines, dfHeaders, classes, r);
  }

  /** So a text has one result. */
  lemma DecidesUnique(ls: seq<Line>, r1: DfResult, r2: DfResult)
    requires Decides(ls, r1) && Decides(ls, r2)
    ensures r1 == r2
  {
    if !AllFine(ls) {
      var k :| StopsAt(ls, k, r1);
      var j :| StopsAt(ls, j, r2);
      assert forall i :: 0 <= i < k ==> Fine(ls[..k][i]) && ls[..k][i] == ls[i];
      assert forall i :: 0 <= i < j ==> Fine(ls[..j][i]) && ls[..j][i] == ls[i];
    }
  }

  // ----- round trip

  /** The fields df prints for a row. */
  function Print(r: DfRow): seq<string>
    requires r.use >= 0
  {
    [r.filesystem, r.size, r.used, r.avail, Decimal(r.use) + "%", r.mountedOn]
  }

  /** A row df can print unambiguously: no space in any column. */
  predicate Printable(r: DfRow, headers: seq<string>)
    requires |headers| == 7
  {
    && IsWord(r.filesystem) && IsWord(r.size) && IsWord(r.used) && IsWord(r.avail) && IsWord(r.mountedOn)
    && 0 <= r.use <= MAX_INT64 && r.filesystem != headers[0]
  }

  predicate AllPrintable(rows: seq<DfRow>, headers: seq<string>)
    requires |headers| == 7
  {
    forall k :: 0 <= k < |rows| ==> Printable(rows[k], headers)
  }

  /** `line` is `words` with any spacing, on one line. */
  ghost predicate LaidOut(line: string, words: seq<string>) {
    '\n' !in line && exists gaps :: |gaps| == |words| + 1 && Spaced(gaps) && line == Layout(words, gaps)
  }

  lemma LaidOutFields(line: string, words: seq<string>)
    requires LaidOut(line, words) && forall w :: w in words ==> IsWord(w)
    ensures Fields(TrimSpace(line)) == words
  {
    var gaps :| |gaps| == |words| + 1 && Spaced(gaps) && line == Layout(words, gaps);
    FieldsOfLayout(words, gaps);
    FieldsTrim(line);
  }

  lemma DecimalIsWord(n: nat)
    ensures IsWord(Decimal(n) + "%")
  {
    DecimalDigits(n);
    assert forall k :: 0 <= k < |Decimal(n)| ==> !IsSpace(Decimal(n)[k]);
  }

  lemma UseField(n: nat)
    requires n <= MAX_INT64
    ensures Atoi(TrimSpace(RemoveChar(Decimal(n) + "%", '%'))) == n
  {
    AtoiDecimal(n);
    RemoveCharLast(Decimal(n), '%');
    TrimWord(Decimal(n));
  }

  lemma PrintedWords(r: DfRow, headers: seq<string>)
    requires |headers| == 7 && Printable(r, headers)
    ensures forall w :: w in Print(r) ==> IsWord(w)
  {
    DecimalIsWord(r.use);
  }

  lemma PrintedRow(r: DfRow, headers: seq<string>)
    requires |headers| == 7 && Printable(r, headers)
    ensures RowOf(Print(r)) == r
  {
    UseField(r.use);
    TrimWord(r.filesystem);
    TrimWord(r.size);
    TrimWord(r.used);
    TrimWord(r.avail);
    TrimWord(r.mountedOn);
  }

  lemma RowLine(line: string, r: DfRow, headers: seq<string>)
    requires |headers| == 7 && Printable(r, headers) && PrintedOn(line, r)
    ensures Classify(line, headers) == Row(r)
  {
    PrintedWords(r, headers);
    PrintedRow(r, headers);
    LaidOutFields(line, Print(r));
    EmptyHasNoFields();
    assert Print(r)[0] == r.filesystem;
  }

  lemma EmptyHasNoFields()
    ensures Fields(TrimSpace("")) == []
  {
  }

  lemma HeaderLine(line: string, headers: seq<string>)
    requires |headers| == 7 && (forall w :: w in headers ==> IsWord(w)) && LaidOut(line, headers)
    ensures Classify(line, headers) == Skip
  {
    LaidOutFields(line, headers);
    EmptyHasNoFields();
  }

  /** The lines of df's output for these rows: header, rows with any spacing between their columns, final
      line break. The columns may be any text on one line. */
  ghost predicate IsOutput(lines: seq<string>, rows: seq<DfRow>, headers: seq<string>) {
    && |lines| == |rows| + 2
    && LaidOut(lines[0], headers) && lines[|rows| + 1] == ""
    && forall k :: 0 <= k < |rows| ==> PrintedOn(lines[k+1], rows[k])
  }

  ghost predicate PrintedOn(line: string, r: DfRow) {
    r.use >= 0 && LaidOut(line, Print(r))
  }

  function RowLines(rows: seq<DfRow>): seq<Line> {
    Map((r: DfRow) => Row(r), rows)
  }

  lemma OutputClasses(lines: seq<string>, rows: seq<DfRow>, headers: seq<string>)
    requires |headers| == 7 && (forall w :: w in headers ==> IsWord(w))
    requires IsOutput(lines, rows, headers) && AllPrintable(rows, headers)
    ensures ClassifyAll(lines, headers) == [Skip] + RowLines(rows) + [Skip]
  {
    var classify := Classifier(headers);
    HeaderLine(lines[0], headers);
    assert classify(lines[0]) == Skip && classify(lines[|rows|+1]) == Skip;
    forall k | 0 <= k < |rows|
      ensures classify(lines[k+1]) == Row(rows[k])
    {
      assert PrintedOn(lines[k+1], rows[k]);
      RowLine(lines[k+1], rows[k], headers);
    }
    ClassesOfOutput(classify, lines, rows);
  }

  lemma ClassesOfOutput(classify: string -> Line, lines: seq<string>, rows: seq<DfRow>)
    requires |lines| == |rows| + 2
    requires classify(lines[0]) == Skip && classify(lines[|rows|+1]) == Skip
    requires forall k :: 0 <= k < |rows| ==> classify(lines[k+1]) == Row(rows[k])
    ensures Map(classify, lines) == [Skip] + RowLines(rows) + [Skip]
  {
    var expected := [Skip] + RowLines(rows) + [Skip];
    forall k | 0 <= k < |expected|
      ensures Map(classify, lines)[k] == expected[k]
    {
      if 0 < k <= |rows| {
        assert classify(lines[k-1+1]) == Row(rows[k-1]);
      }
    }
  }

  lemma {:induction false} RowsBack(rows: seq<DfRow>)
    ensures RowsIn([Skip] + RowLines(rows)) == rows
    ensures AllFine([Skip] + RowLines(rows))
  {
    var ls := [Skip] + RowLines(rows);
    if rows == [] {
      assert ls[..0] == [];
    } else {
      var n := |rows| - 1;
      RowsBack(rows[..n]);
      assert ls[..n+1] == [Skip] + RowLines(rows[..n]);
      assert rows == rows[..n] + [rows[n]];
    }
  }

  lemma LaidOutOnOneLine(line: string, words: seq<string>)
    requires LaidOut(line, words)
    ensures '\n' !in line
  {
  }

  lemma OutputLine(lines: seq<string>, rows: seq<DfRow>, headers: seq<string>, k: nat)
    requires IsOutput(lines, rows, headers) && k < |lines|
    ensures '\n' !in lines[k]
  {
    if k == 0 {
      LaidOutOnOneLine(lines[0], headers);
    } else if k <= |rows| {
      assert PrintedOn(lines[k-1+1], rows[k-1]);
      LaidOutOnOneLine(lines[k], Print(rows[k-1]));
    }
  }

  lemma OneLineEach(lines: seq<string>, rows: seq<DfRow>, headers: seq<string>)
    requires IsOutput(lines, rows, headers)
    ensures forall k :: 0 <= k < |lines| ==> '\n' !in lines[k]
  {
    forall k | 0 <= k < |lines|
      ensures '\n' !in lines[k]
    {
      OutputLine(lines, rows, headers, k);
    }
  }

  lemma PrintedDecides(ls: seq<Line>, rows: seq<DfRow>, r: DfResult)
    requires ls == [Skip] + RowLines(rows) + [Skip]
    ensures Decides(ls, r) <==> r == Rows(rows)
  {
    RowsBack(rows);
    assert ls[..|rows|+1] == [Skip] + RowLines(rows);
    assert forall k :: 0 <= k <= |rows| ==> ls[k] == ls[..|rows|+1][k];
  }

  lemma LinesBack(lines: seq<string>, rows: seq<DfRow>, headers: seq<string>)
    requires IsOutput(lines, rows, headers)
    ensures Split(Join(lines, "\n"), '\n') == lines
  {
    OneLineEach(lines, rows, headers);
    SplitJoin(lines, '\n');
  }

  /** Parsing df's output returns the rows printed, in order, whatever the spacing, and nothing else. */
  lemma ParsePrinted(lines: seq<string>, rows: seq<DfRow>, headers: seq<string>, r: DfResult)
    requires |headers| == 7 && (forall w :: w in headers ==> IsWord(w))
    requires IsOutput(lines, rows, headers) && AllPrintable(rows, headers)
    ensures Decides(ClassifyAll(Split(Join(lines, "\n"), '\n'), headers), r) <==> r == Rows(rows)
  {
    LinesBack(lines, rows, headers);
    OutputClasses(lines, rows, headers);
    PrintedDecides(ClassifyAll(lines, headers), rows, r);
  }

  // ----- and when there is a space in a column

  lemma ParsedRowIsPrintable(line: string, headers: seq<string>)
    requires |headers| == 7 && Classify(line, headers).Row? && Classify(line, headers).row.use >= 0
    ensures Printable(Classify(line, headers).row, headers)
  {
    var fields := Fields(TrimSpace(line));
    FieldsAreWords(TrimSpace(line));
    assert forall k :: 0 <= k < 6 ==> fields[k] in fields;
    TrimWord(fields[0]);
    TrimWord(fields[1]);
    TrimWord(fields[2]);
    TrimWord(fields[3]);
    TrimWord(fields[5]);
  }

  lemma {:induction false} RowsComeFromLines(ls: seq<Line>, k: nat) returns (i: nat)
    requires k < |RowsIn(ls)|
    ensures i < |ls| && ls[i] == Row(RowsIn(ls)[k])
  {
    var n := |ls| - 1;
    if k < |RowsIn(ls[..n])| {
      i := RowsComeFromLines(ls[..n], k);
    } else {
      i := n;
    }
  }

  /** Parsing returns the rows printed exactly if no column of any row has a space in it. */
  lemma ParsedExactly(lines: seq<string>, rows: seq<DfRow>, headers: seq<string>, r: DfResult)
    requires |headers| == 7 && (forall w :: w in headers ==> IsWord(w))
    requires IsOutput(lines, rows, headers)
    requires Decides(ClassifyAll(Split(Join(lines, "\n"), '\n'), headers), r)
    ensures r == Rows(rows) <==> AllPrintable(rows, headers)
  {
    if AllPrintable(rows, headers) {
      ParsePrinted(lines, rows, headers, r);
    } else {
      LinesBack(lines, rows, headers);
      if r == Rows(rows) {
        RowsOnlyIfAllFine(ClassifyAll(lines, headers), rows);
        forall k | 0 <= k < |rows|
          ensures Printable(rows[k], headers)
        {
          assert PrintedOn(lines[k+1], rows[k]);
          ParsedIsPrintable(lines, headers, k);
        }
      }
    }
  }

  lemma RowsOnlyIfAllFine(ls: seq<Line>, rows: seq<DfRow>)
    requires Decides(ls, Rows(rows))
    ensures RowsIn(ls) == rows
  {
  }

  lemma ParsedIsPrintable(lines: seq<string>, headers: seq<string>, k: nat)
    requires |headers| == 7 && k < |RowsIn(ClassifyAll(lines, headers))|
    requires RowsIn(ClassifyAll(lines, headers))[k].use >= 0
    ensures Printable(RowsIn(ClassifyAll(lines, headers))[k], headers)
  {
    var i := RowsComeFromLines(ClassifyAll(lines, headers), k);
    ParsedRowIsPrintable(lines[i], headers);
  }

  /** A row without a blank column, whose file system does not begin like a header. */
  predicate NoBlank(r: DfRow, headers: seq<string>)
    requires |headers| == 7
  {
    && !AllSpace(r.filesystem) && !AllSpace(r.size) && !AllSpace(r.used) && !AllSpace(r.avail)
    && !AllSpace(r.mountedOn) && Fields(r.filesystem) != [] && Fields(r.filesystem)[0] != headers[0]
  }

  predicate HasInnerSpace(r: DfRow) {
    || InnerSpace(r.filesystem) || InnerSpace(r.size) || InnerSpace(r.used) || InnerSpace(r.avail)
    || InnerSpace(r.mountedOn)
  }

  /** Columns that each have a field have as many fields as there are columns exactly if none has a
      space inside. */
  lemma {:induction false} CountFields(columns: seq<string>)
    requires forall c :: c in columns ==> !AllSpace(c)
    ensures |AllFields(columns)| >= |columns|
    ensures |AllFields(columns)| > |columns| <==> exists k :: 0 <= k < |columns| && InnerSpace(columns[k])
  {
    if columns != [] {
      CountFields(columns[1..]);
      NoFieldsExactly(columns[0]);
      ManyFieldsExactly(columns[0]);
      if k :| 0 <= k < |columns| && InnerSpace(columns[k]) {
        assert k == 0 || InnerSpace(columns[1..][k-1]);
      }
      if k :| 0 <= k < |columns[1..]| && InnerSpace(columns[1..][k]) {
        assert InnerSpace(columns[k+1]);
      }
    }
  }

  lemma WordHasNoInnerSpace(w: string)
    requires IsWord(w)
    ensures !AllSpace(w) && !InnerSpace(w)
  {
    assert !IsSpace(w[0]);
  }

  lemma PrintedFieldCount(r: DfRow, headers: seq<string>)
    requires |headers| == 7 && r.use >= 0 && NoBlank(r, headers)
    ensures |AllFields(Print(r))| >= 6 && (|AllFields(Print(r))| > 6 <==> HasInnerSpace(r))
    ensures AllFields(Print(r))[0] == Fields(r.filesystem)[0]
  {
    var columns := Print(r);
    DecimalIsWord(r.use);
    WordHasNoInnerSpace(columns[4]);
    CountFields(columns);
    assert columns[0] == r.filesystem && columns[1] == r.size && columns[2] == r.used && columns[3] == r.avail
        && columns[5] == r.mountedOn;
  }

  lemma LineOfColumns(line: string, r: DfRow, headers: seq<string>)
    requires |headers| == 7 && PrintedOn(line, r) && NoBlank(r, headers)
    ensures Classify(line, headers).Row? || Classify(line, headers).RowError?
    ensures Classify(line, headers).RowError? <==> HasInnerSpace(r)
  {
    var columns := Print(r);
    var gaps :| |gaps| == |columns| + 1 && Spaced(gaps) && line == Layout(columns, gaps);
    FieldsOfColumns(columns, gaps);
    FieldsTrim(line);
    PrintedFieldCount(r, headers);
    EmptyHasNoFields();
  }

  predicate RefusedIf(line: Line, refused: bool) {
    (line.Row? || line.RowError?) && line.RowError? == refused
  }

  /** The lines of an output, its row lines refused where told. */
  predicate RefusesWhere(ls: seq<Line>, refused: seq<bool>) {
    && |ls| == |refused| + 2 && ls[0].Skip? && ls[|refused|+1].Skip?
    && forall k :: 0 <= k < |refused| ==> RefusedIf(ls[k+1], refused[k])
  }

  lemma RefusesOfOutput(classify: string -> Line, lines: seq<string>, refused: seq<bool>)
    requires |lines| == |refused| + 2 && classify(lines[0]) == Skip && classify(lines[|refused|+1]) == Skip
    requires forall k :: 0 <= k < |refused| ==> RefusedIf(classify(lines[k+1]), refused[k])
    ensures RefusesWhere(Map(classify, lines), refused)
  {
    forall k | 0 <= k < |refused|
      ensures RefusedIf(Map(classify, lines)[k+1], refused[k])
    {
      assert RefusedIf(classify(lines[k+1]), refused[k]);
    }
  }

  lemma ColumnClasses(lines: seq<string>, rows: seq<DfRow>, headers: seq<string>)
    requires |headers| == 7 && (forall w :: w in headers ==> IsWord(w))
    requires IsOutput(lines, rows, headers) && forall k :: 0 <= k < |rows| ==> NoBlank(rows[k], headers)
    ensures RefusesWhere(ClassifyAll(lines, headers), Map(HasInnerSpace, rows))
  {
    HeaderLine(lines[0], headers);
    var classify, refused := Classifier(headers), Map(HasInnerSpace, rows);
    assert classify(lines[0]) == Skip && classify(lines[|rows|+1]) == Skip;
    forall k | 0 <= k < |refused|
      ensures RefusedIf(classify(lines[k+1]), refused[k])
    {
      LineRefused(lines, rows, headers, k);
    }
    RefusesOfOutput(classify, lines, refused);
  }

  lemma LineRefused(lines: seq<string>, rows: seq<DfRow>, headers: seq<string>, k: nat)
    requires |headers| == 7 && IsOutput(lines, rows, headers) && k < |rows| && NoBlank(rows[k], headers)
    ensures RefusedIf(Classify(lines[k+1], headers), HasInnerSpace(rows[k]))
  {
    assert PrintedOn(lines[k+1], rows[k]);
    LineOfColumns(lines[k+1], rows[k], headers);
  }

  lemma RefusalDecides(ls: seq<Line>, refused: seq<bool>, r: DfResult)
    requires Decides(ls, r) && RefusesWhere(ls, refused)
    ensures r.Rows? || r == BadRow
    ensures r == BadRow <==> exists k :: 0 <= k < |refused| && refused[k]
  {
    forall j | 0 <= j < |ls|
      ensures Fine(ls[j]) || (ls[j].RowError? && 0 < j <= |refused| && refused[j-1])
    {
      if 0 < j <= |refused| {
        assert RefusedIf(ls[j-1+1], refused[j-1]);
      }
    }
    if k :| 0 <= k < |refused| && refused[k] {
      assert RefusedIf(ls[k+1], refused[k]);
      assert !Fine(ls[k+1]);
    }
  }

  /** When it does not, the whole output is refused: exactly if some column of some row has a space
      inside it. */
  lemma RefusedExactly(lines: seq<string>, rows: seq<DfRow>, headers: seq<string>, r: DfResult)
    requires |headers| == 7 && (forall w :: w in headers ==> IsWord(w))
    requires IsOutput(lines, rows, headers) && forall k :: 0 <= k < |rows| ==> NoBlank(rows[k], headers)
    requires Decides(ClassifyAll(Split(Join(lines, "\n"), '\n'), headers), r)
    ensures r.Rows? || r == BadRow
    ensures r == BadRow <==> exists k :: 0 <= k < |rows| && HasInnerSpace(rows[k])
  {
    LinesBack(lines, rows, headers);
    ColumnClasses(lines, rows, headers);
    var refused := Map(HasInnerSpace, rows);
    RefusalDecides(ClassifyAll(lines, headers), refused, r);
    assert forall k :: 0 <= k < |rows| ==> refused[k] == HasInnerSpace(rows[k]);
  }

  const LINUX_HEADERS := ["Filesystem", "Size", "Used", "Avail", "Use%", "Mounted", "on"]
  const FREEBSD_HEADERS := ["Filesystem", "Size", "Used", "Avail", "Capacity", "Mounted", "on"]

  lemma HeadersAreWords()
    ensures forall w :: w in LINUX_HEADERS ==> IsWord(w)
    ensures forall w :: w in FREEBSD_HEADERS ==> IsWord(w)
  {
  }

  /** Printing and parsing together, on either system. */
  method ParsePrintedOutput(lines: seq<string>, rows: seq<DfRow>, linux: bool) returns (r: DfResult)
    requires IsOutput(lines, rows, if linux then LINUX_HEADERS else FREEBSD_HEADERS)
    ensures r == Rows(rows) <==> AllPrintable(rows, if linux then LINUX_HEADERS else FREEBSD_HEADERS)
  {
    HeadersAreWords();
    var headers := if linux then LINUX_HEADERS else FREEBSD_HEADERS;
    r := ParseDfResult(Join(lines, "\n"), headers);
    ParsedExactly(lines, rows, headers, r);
  }

  // ----- lookup

  method GetUsageAt(path: string, rows: seq<DfRow>) returns (found: bool, row: DfRow)
    ensures found <==> exists k :: 0 <= k < |rows| && rows[k].mountedOn == path
    ensures found ==> exists k :: 0 <= k < |rows| && rows[k] == row && row.mountedOn == path
                               && forall j :: 0 <= j < k ==> rows[j].mountedOn != path
    ensures !found ==> row == DfRow("", "", "", "", 0, "")
  {
    for i := 0 to |rows|
      invariant forall j :: 0 <= j < i ==> rows[j].mountedOn != path
    {
      if rows[i].mountedOn == path {
        return true, rows[i];
      }
    }
    return false, DfRow("", "", "", "", 0, "");
  }
}
