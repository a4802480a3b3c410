/**
 * Reading a CSV in the format of section 2 of RFC 4180: the records with their offsets and cells,
 * and what lines cut from it, or written in that format, read back as.
 */
module Csv {
  predicate IsBreak(c: char) { c == '\n' || c == '\r' }

  /** What has been read of a record: whether inside quotes, part of a cell, the cells before it. */
  datatype Part = Part(quoted: bool, cell: string, cells: seq<string>)

  const NOTHING := Part(false, "", [])

  /** A line break outside quotes ends the record. */
  predicate Ends(s: string, i: nat, p: Part) { i < |s| && !p.quoted && IsBreak(s[i]) }

  /** A quote inside quotes that is not the last stands for itself if another follows. */
  predicate IsPair(s: string, i: nat, p: Part) { p.quoted && i + 1 < |s| && s[i] == '"' && s[i + 1] == '"' }

  function Taken(s: string, i: nat, p: Part): nat { if IsPair(s, i, p) then 2 else 1 }

  /** One step within a record. */
  function Read(s: string, i: nat, p: Part): Part
    requires i < |s|
  {
    if IsPair(s, i, p) then p.(cell := p.cell + ['"'])
    else if s[i] == '"' then p.(quoted := !p.quoted)
    else if s[i] == ',' && !p.quoted then Part(false, "", p.cells + [p.cell])
    else p.(cell := p.cell + [s[i]])
  }

  /** A record as it is read: its cells, where it ends, and whether that is inside quotes. */
  datatype Scan = Scan(cells: seq<string>, end: nat, open: bool)

  /** The rest, from an offset on, of a record of which a part has been read. */
  function ScanFrom(s: string, i: nat, p: Part): (r: Scan)
    requires i <= |s|
    ensures i <= r.end <= |s| && r.cells != [] && (r.end < |s| ==> IsBreak(s[r.end]) && !r.open)
    decreases |s| - i
  {
    if i == |s| || Ends(s, i, p) then Scan(p.cells + [p.cell], i, p.quoted)
    else ScanFrom(s, i + Taken(s, i, p), Read(s, i, p))
  }

  datatype Record = Record(start: nat, end: nat, cells: seq<string>)

  /** Where the record after one that ends here starts: behind the line terminator. */
  function Next(text: string, end: nat): (next: nat)
    requires end <= |text|
    ensures end <= next <= |text| && (end < |text| && IsBreak(text[end]) ==> next > end)
  {
    if end == |text| || !IsBreak(text[end]) then end
    else if text[end] == '\r' && end + 1 < |text| && text[end + 1] == '\n' then end + 2
    else end + 1
  }

  /** The text of a record. */
  function Slice(text: string, r: Record): string {
    if r.start <= r.end <= |text| then text[r.start..r.end] else ""
  }

  /** A record: what is read from its start. */
  predicate IsRecord(text: string, r: Record) {
    r.start < |text| && var scan := ScanFrom(text, r.start, NOTHING); r.end == scan.end && r.cells == scan.cells
  }

  predicate IsRecordAt(text: string, records: seq<Record>, from: nat, i: nat)
    requires i < |records|
  {
    IsRecord(text, records[i]) && records[i].start == if i == 0 then from
      else (if records[i - 1].end <= |text| then Next(text, records[i - 1].end) else 0)
  }

  /** The records of `text` from one offset up to another, one after the other, only line terminators between them. */
  ghost predicate AreRecords(text: string, records: seq<Record>, from: nat, to: nat) {
    && (forall i {:trigger IsRecordAt(text, records, from, i)} | 0 <= i < |records| ::
         IsRecordAt(text, records, from, i))
    && to == if records == [] then from
         else (if records[|records| - 1].end <= |text| then Next(text, records[|records| - 1].end) else 0)
  }

  lemma AddRecord(text: string, records: seq<Record>, from: nat, to: nat, r: Record)
    requires AreRecords(text, records, from, to) && IsRecord(text, r) && r.start == to
    ensures r.end <= |text| && AreRecords(text, records + [r], from, Next(text, r.end))
  {
    var more := records + [r];
    forall i | 0 <= i < |more| ensures IsRecordAt(text, more, from, i) {
      if i < |records| { assert IsRecordAt(text, records, from, i); }
    }
  }

  /** Part of the record that starts at `start` has been read, up to `index`. */
  predicate IsRead(text: string, start: nat, index: nat, p: Part) {
    start <= index <= |text| && ScanFrom(text, start, NOTHING) == ScanFrom(text, index, p)
  }

  /** One step of the loop that does not end a record. */
  method ReadChar(text: string, start: nat, at: nat, part: Part) returns (index: nat, p: Part)
    requires start <= at < |text| && IsRead(text, start, at, part) && !Ends(text, at, part)
    ensures at < index <= |text| && IsRead(text, start, index, p)
  {
    var c, quoted, cell, cells := text[at], part.quoted, part.cell, part.cells;
    index := at;
    if quoted {
      if c == '"' && index + 1 < |text| && text[index + 1] == '"' {
        cell := cell + ['"'];
        index := index + 1;
      } else if c == '"' {
        quoted := false;
      } else {
        cell := cell + [c];
      }
    } else if c == '"' {
      quoted := true;
    } else if c == ',' {
      cells, cell := cells + [cell], "";
    } else {
      cell := cell + [c];
    }
    index := index + 1;
    p := Part(quoted, cell, cells);
  }

  method CsvRecords(text: string) returns (records: seq<Record>)
    ensures AreRecords(text, records, 0, |text|)
  {
    records := [];
    var start: nat, index: nat := 0, 0;
    var p := NOTHING;
    while index < |text|
      invariant start <= index <= |text|
      invariant index == start ==> p == NOTHING
      invariant AreRecords(text, records, 0, start)
      invariant IsRead(text, start, index, p)
      decreases |text| - index
    {
      if p.quoted || !IsBreak(text[index]) {
        index, p := ReadChar(text, start, index, p);
      } else {
        AddRecord(text, records, 0, start, Record(start, index, p.cells + [p.cell]));
        records := records + [Record(start, index, p.cells + [p.cell])];
        index := Next(text, index);
        start, p := index, NOTHING;
      }
    }
    if index > start || p.cells != [] || p.cell != "" {
      AddRecord(text, records, 0, start, Record(start, |text|, p.cells + [p.cell]));
      records := records + [Record(start, |text|, p.cells + [p.cell])];
    }
  }

  // ---- Cutting -----------------------------------------------------------------------------

  /** Read on its own, a record's text gives the same cells; and it ends inside quotes as it did. */
  lemma {:induction false} SliceReads(s: string, i: nat, p: Part)
    requires i <= |s|
    ensures var r := ScanFrom(s, i, p); ScanFrom(s[..r.end], i, p) == r
    decreases |s| - i
  {
    if i < |s| && !Ends(s, i, p) { SliceReads(s, i + Taken(s, i, p), Read(s, i, p)); }
  }

  /** What stands before a record does not matter. */
  lemma {:induction false} ReadsAnywhere(before: string, s: string, i: nat, p: Part)
    requires i <= |s|
    ensures var r := ScanFrom(s, i, p); ScanFrom(before + s, |before| + i, p) == Scan(r.cells, |before| + r.end, r.open)
    decreases |s| - i
  {
    if i < |s| && !Ends(s, i, p) { ReadsAnywhere(before, s, i + Taken(s, i, p), Read(s, i, p)); }
  }

  /** A record that ends outside quotes reads the same before a line terminator. */
  lemma {:induction false} ClosedReads(a: string, b: string, i: nat, p: Part)
    requires i <= |a| && var r := ScanFrom(a, i, p); r.end == |a| && !r.open
    requires b != "" ==> IsBreak(b[0])
    ensures ScanFrom(a + b, i, p) == ScanFrom(a, i, p)
    decreases |a| - i
  {
    if i < |a| { ClosedReads(a, b, i + Taken(a, i, p), Read(a, i, p)); }
  }

  function ExtendLast(cells: seq<string>, more: string): seq<string>
    requires cells != []
  {
    cells[..|cells| - 1] + [cells[|cells| - 1] + more]
  }

  /** One that ends inside quotes takes the line terminator into its last cell. */
  lemma {:induction false} OpenReads(a: string, b: string, i: nat, p: Part)
    requires i <= |a| && var r := ScanFrom(a, i, p); r.end == |a| && r.open
    requires IsNewline(b)
    ensures ScanFrom(a + b, i, p) == Scan(ExtendLast(ScanFrom(a, i, p).cells, b), |a| + |b|, true)
    decreases |a| - i
  {
    if i < |a| {
      OpenReads(a, b, i + Taken(a, i, p), Read(a, i, p));
    } else {
      assert ExtendLast(p.cells + [p.cell], b) == p.cells + [p.cell + b];
      assert (a + b)[i..] == b;
      RestInside(a + b, i, p);
    }
  }

  /** Inside quotes, with no quote to come, the rest of the text is the rest of the cell. */
  lemma {:induction false} RestInside(s: string, i: nat, p: Part)
    requires i <= |s| && p.quoted && forall k | i <= k < |s| :: s[k] != '"'
    ensures ScanFrom(s, i, p) == Scan(p.cells + [p.cell + s[i..]], |s|, true)
    decreases |s| - i
  {
    if i < |s| {
      RestInside(s, i + 1, p.(cell := p.cell + [s[i]]));
      assert p.cell + [s[i]] + s[i + 1..] == p.cell + s[i..];
    } else {
      assert p.cell + s[i..] == p.cell;
    }
  }

  predicate IsNewline(s: string) { s == "\n" || s == "\r\n" }

  function Lines(lines: seq<string>, newline: string): string {
    if lines == [] then "" else Lines(lines[..|lines| - 1], newline) + lines[|lines| - 1] + newline
  }

  lemma LinesAdd(lines: seq<string>, last: string, newline: string)
    ensures Lines(lines + [last], newline) == Lines(lines, newline) + last + newline
  {
    assert (lines + [last])[..|lines|] == lines;
  }

  lemma {:induction false} LinesConcat(a: seq<string>, b: seq<string>, newline: string)
    ensures Lines(a + b, newline) == Lines(a, newline) + Lines(b, newline)
  {
    if b == [] {
      assert a + b == a;
    } else {
      LinesConcat(a, b[..|b| - 1], newline);
      ConcatAdd(a, b[..|b| - 1], b[|b| - 1], newline);
      assert b[..|b| - 1] + [b[|b| - 1]] == b;
    }
  }

  lemma ConcatAdd(a: seq<string>, front: seq<string>, last: string, newline: string)
    requires Lines(a + front, newline) == Lines(a, newline) + Lines(front, newline)
    ensures Lines(a + (front + [last]), newline) == Lines(a, newline) + Lines(front + [last], newline)
  {
    LinesAdd(front, last, newline);
    LinesAdd(a + front, last, newline);
    assert a + front + [last] == a + (front + [last]);
    Regroup(Lines(a, newline), Lines(front, newline), last, newline);
  }

  lemma Regroup(a: string, b: string, c: string, d: string)
    ensures (a + b) + c + d == a + (b + c + d)
  {
  }

  /** The text around line `k`. */
  lemma LinesAround(lines: seq<string>, newline: string, k: nat)
    requires k < |lines|
    ensures Lines(lines, newline)
        == Lines(lines[..k], newline) + (lines[k] + (newline + Lines(lines[k + 1..], newline)))
    ensures |Lines(lines[..k + 1], newline)| == |Lines(lines[..k], newline)| + |lines[k]| + |newline|
  {
    assert lines == lines[..k + 1] + lines[k + 1..] && lines[..k + 1][..k] == lines[..k];
    LinesConcat(lines[..k + 1], lines[k + 1..], newline);
  }

  /** A whole record's text. */
  predicate IsWhole(line: string) { ScanFrom(line, 0, NOTHING).end == |line| }

  predicate IsClosed(line: string) { IsWhole(line) && !ScanFrom(line, 0, NOTHING).open }

  function CellsOf(line: string): seq<string> { ScanFrom(line, 0, NOTHING).cells }

  function StartOf(lines: seq<string>, newline: string, k: nat): nat
    requires k <= |lines|
  {
    |Lines(lines[..k], newline)|
  }

  /** Line `k` reads as on its own; if it ends inside quotes, and is the last, with the newline in its last cell. */
  lemma LineReads(lines: seq<string>, newline: string, k: nat)
    requires IsNewline(newline) && k < |lines| && (IsClosed(lines[k]) || (IsWhole(lines[k]) && k == |lines| - 1))
    ensures var text, start := Lines(lines, newline), StartOf(lines, newline, k);
            && start < |text| && var r := ScanFrom(text, start, NOTHING);
            if IsClosed(lines[k]) then r == Scan(CellsOf(lines[k]), start + |lines[k]|, false)
            else r == Scan(ExtendLast(CellsOf(lines[k]), newline), |text|, true)
  {
    var before, rest := Lines(lines[..k], newline), newline + Lines(lines[k + 1..], newline);
    LinesAround(lines, newline, k);
    ReadsAnywhere(before, lines[k] + rest, 0, NOTHING);
    if IsClosed(lines[k]) {
      ClosedReads(lines[k], rest, 0, NOTHING);
    } else {
      assert Lines(lines[k + 1..], newline) == "";
      assert rest == newline;
      OpenReads(lines[k], newline, 0, NOTHING);
    }
  }

  /** Lines of which all but the last end outside quotes. */
  predicate AreLines(lines: seq<string>) {
    (forall j | 0 <= j < |lines| - 1 :: IsClosed(lines[j])) && (lines != [] ==> IsWhole(lines[|lines| - 1]))
  }

  /** The record on line `k` is followed by line `k + 1`. */
  lemma LineNext(lines: seq<string>, newline: string, k: nat, r: Record)
    requires IsNewline(newline) && AreLines(lines) && k < |lines|
    requires IsRecord(Lines(lines, newline), r) && r.start == StartOf(lines, newline, k)
    ensures var text := Lines(lines, newline); r.end <= |text| && Next(text, r.end) == StartOf(lines, newline, k + 1)
  {
    LineReads(lines, newline, k);
    BreakBehind(lines, newline, k);
    LinesAround(lines, newline, k);
    assert k == |lines| - 1 ==> lines[..k + 1] == lines;
  }

  /** A record is followed by another exactly if text is left behind its terminator. */
  lemma RecordNext(text: string, records: seq<Record>, i: nat)
    requires AreRecords(text, records, 0, |text|) && i < |records|
    ensures IsRecord(text, records[i]) && records[i].end <= |text|
    ensures i + 1 < |records| <==> Next(text, records[i].end) < |text|
    ensures i + 1 < |records| ==> IsRecord(text, records[i + 1]) && records[i + 1].start == Next(text, records[i].end)
  {
    assert IsRecordAt(text, records, 0, i);
    if i + 1 < |records| { assert IsRecordAt(text, records, 0, i + 1); }
  }

  lemma StartsApart(lines: seq<string>, newline: string, k: nat)
    requires newline != "" && k < |lines|
    ensures StartOf(lines, newline, k) < |Lines(lines, newline)|
  {
    LinesAround(lines, newline, k);
  }

  /** Reading lines back: line `k` is record `k`. */
  lemma {:induction false} LineIsRecord(lines: seq<string>, newline: string, records: seq<Record>, k: nat)
    requires IsNewline(newline) && AreLines(lines) && k < |lines|
    requires var text := Lines(lines, newline); AreRecords(text, records, 0, |text|)
    ensures k < |records| && IsRecord(Lines(lines, newline), records[k])
        && records[k].start == StartOf(lines, newline, k)
  {
    var text := Lines(lines, newline);
    StartsApart(lines, newline, k);
    if k > 0 {
      LineIsRecord(lines, newline, records, k - 1);
      LineNext(lines, newline, k - 1, records[k - 1]);
      RecordNext(text, records, k - 1);
    } else {
      RecordNext(text, records, 0);
      assert IsRecordAt(text, records, 0, 0);
    }
  }

  /** Only so many records. */
  lemma NoMoreRecords(lines: seq<string>, newline: string, records: seq<Record>)
    requires IsNewline(newline) && AreLines(lines) && lines != []
    requires var text := Lines(lines, newline); AreRecords(text, records, 0, |text|)
    ensures |records| == |lines|
  {
    var n := |lines|;
    LineIsRecord(lines, newline, records, n - 1);
    LineNext(lines, newline, n - 1, records[n - 1]);
    RecordNext(Lines(lines, newline), records, n - 1);
    assert lines[..n] == lines;
  }

  lemma LineBack(lines: seq<string>, newline: string, k: nat, r: Record)
    requires IsNewline(newline) && k < |lines| && IsClosed(lines[k])
    requires IsRecord(Lines(lines, newline), r) && r.start == StartOf(lines, newline, k)
    ensures r.cells == CellsOf(lines[k]) && Slice(Lines(lines, newline), r) == lines[k]
  {
    LineReads(lines, newline, k);
    LinesAround(lines, newline, k);
    Middle(Lines(lines[..k], newline), lines[k], newline + Lines(lines[k + 1..], newline));
  }

  lemma Middle(a: string, b: string, c: string)
    ensures (a + (b + c))[|a|..|a| + |b|] == b
  {
  }

  /**
   * Lines read back give exactly their cells, record by record, if and only if the last one does
   * not end inside quotes.
   */
  lemma LinesReadBack(lines: seq<string>, newline: string, records: seq<Record>)
    requires IsNewline(newline) && AreLines(lines) && lines != []
    requires var text := Lines(lines, newline); AreRecords(text, records, 0, |text|)
    ensures |records| == |lines|
    ensures (forall k | 0 <= k < |lines| :: records[k].cells == CellsOf(lines[k])) <==> IsClosed(lines[|lines| - 1])
    ensures forall k | 0 <= k < |lines| && IsClosed(lines[k]) :: Slice(Lines(lines, newline), records[k]) == lines[k]
  {
    var n := |lines|;
    NoMoreRecords(lines, newline, records);
    forall k | 0 <= k < n && IsClosed(lines[k])
      ensures records[k].cells == CellsOf(lines[k]) && Slice(Lines(lines, newline), records[k]) == lines[k]
    {
      LineIsRecord(lines, newline, records, k);
      LineBack(lines, newline, k, records[k]);
    }
    if !IsClosed(lines[n - 1]) {
      LineIsRecord(lines, newline, records, n - 1);
      LineReads(lines, newline, n - 1);
      var cells := CellsOf(lines[n - 1]);
      assert |ExtendLast(cells, newline)[|cells| - 1]| > |cells[|cells| - 1]|;
    }
  }

  lemma BreakBehind(lines: seq<string>, newline: string, k: nat)
    requires IsNewline(newline) && k < |lines|
    ensures var text, end := Lines(lines, newline), |Lines(lines[..k], newline)| + |lines[k]|;
            end <= |text| && Next(text, end) == end + |newline|
  {
    LinesAround(lines, newline, k);
    var text, end := Lines(lines, newline), |Lines(lines[..k], newline)| + |lines[k]|;
    var rest := newline + Lines(lines[k + 1..], newline);
    assert text == Lines(lines[..k], newline) + lines[k] + rest;
    assert text[end..] == rest;
    assert text[end] == newline[0];
    if |newline| == 2 { assert text[end + 1] == newline[1]; }
  }

  /** The records of a text are determined by it. */
  lemma {:induction false} RecordsUnique(text: string, a: seq<Record>, b: seq<Record>, k: nat)
    requires AreRecords(text, a, 0, |text|) && AreRecords(text, b, 0, |text|) && k <= |a|
    ensures a[..k] <= b && (k == |a| ==> a == b)
  {
    if k > 0 {
      RecordsUnique(text, a, b, k - 1);
      RecordNext(text, a, k - 1);
      if k == 1 {
        assert IsRecordAt(text, a, 0, 0);
        if b != [] { assert IsRecordAt(text, b, 0, 0); }
      } else {
        RecordNext(text, a, k - 2);
        RecordNext(text, b, k - 2);
        assert a[..k - 1][k - 2] == a[k - 2];
      }
      assert a[..k] == a[..k - 1] + [a[k - 1]];
      RecordNext(text, b, k - 1);
    } else if b != [] {
      RecordNext(text, b, 0);
      assert IsRecordAt(text, b, 0, 0);
    }
  }

  // ---- Section 2 of RFC 4180 ---------------------------------------------------------------

  /** A field and whether it is written in double quotes; it must be if it holds a comma, a quote or a line break. */
  datatype Field = Field(text: string, quoted: bool)

  predicate Writable(f: Field) {
    f.quoted || forall i | 0 <= i < |f.text| :: f.text[i] != ',' && f.text[i] != '"' && !IsBreak(f.text[i])
  }

  function Quoted(c: char): string { if c == '"' then ['"', '"'] else [c] }

  function Doubled(s: string): string {
    if s == "" then "" else Quoted(s[0]) + Doubled(s[1..])
  }

  function Write(f: Field): string { if f.quoted then ['"'] + Doubled(f.text) + ['"'] else f.text }

  function WriteRow(row: seq<Field>): string {
    if row == [] then "" else if |row| == 1 then Write(row[0]) else Write(row[0]) + [','] + WriteRow(row[1..])
  }

  predicate IsRow(row: seq<Field>) { row != [] && forall i | 0 <= i < |row| :: Writable(row[i]) }

  function Texts(row: seq<Field>): seq<string> { seq(|row|, i requires 0 <= i < |row| => row[i].text) }

  lemma OneStep(s: string, i: nat, p: Part)
    requires i < |s| && !Ends(s, i, p)
    ensures ScanFrom(s, i, p) == ScanFrom(s, i + Taken(s, i, p), Read(s, i, p))
  {
  }

  /** This text stands at this offset. */
  predicate At(s: string, i: nat, w: string) { i + |w| <= |s| && forall k | 0 <= k < |w| :: s[i + k] == w[k] }

  lemma AtBoth(s: string, i: nat, a: string, b: string)
    requires At(s, i, a + b)
    ensures At(s, i, a) && At(s, i + |a|, b)
  {
    forall k | 0 <= k < |a| ensures s[i + k] == a[k] { assert (a + b)[k] == a[k]; }
    forall k | 0 <= k < |b| ensures s[i + |a| + k] == b[k] { assert (a + b)[|a| + k] == b[k]; }
  }

  /** From `i` to `end` stand the characters of `text`, its quotes doubled. */
  predicate IsDoubledAt(s: string, i: nat, text: string, end: nat)
    decreases |text|
  {
    if text == "" then i == end
    else At(s, i, Quoted(text[0])) && IsDoubledAt(s, i + |Quoted(text[0])|, text[1..], end)
  }

  lemma {:induction false} DoubledAt(s: string, i: nat, text: string, end: nat)
    requires At(s, i, Doubled(text)) && end == i + |Doubled(text)|
    ensures IsDoubledAt(s, i, text, end)
    decreases |text|
  {
    if text != "" {
      var first, rest := Quoted(text[0]), Doubled(text[1..]);
      assert Doubled(text) == first + rest;
      AtBoth(s, i, first, rest);
      DoubledAt(s, i + |first|, text[1..], end);
    }
  }

  /** After the opening quote, a quoted field is read up to the closing one. */
  lemma {:induction false} QuotedReads(s: string, i: nat, text: string, end: nat, p: Part)
    requires p.quoted && i <= |s| && IsDoubledAt(s, i, text, end)
    requires end < |s| && s[end] == '"' && (end + 1 < |s| ==> s[end + 1] != '"')
    ensures ScanFrom(s, i, p) == ScanFrom(s, end + 1, Part(false, p.cell + text, p.cells))
    decreases |text|
  {
    if text == "" {
      assert p.cell + text == p.cell;
      QuoteCloses(s, i, p);
    } else {
      var p' := p.(cell := p.cell + [text[0]]);
      QuotedStep(s, i, text[0], p);
      QuotedReads(s, i + |Quoted(text[0])|, text[1..], end, p');
      assert p'.cell + text[1..] == p.cell + text;
    }
  }

  lemma QuoteCloses(s: string, i: nat, p: Part)
    requires p.quoted && i < |s| && s[i] == '"' && (i + 1 < |s| ==> s[i + 1] != '"')
    ensures ScanFrom(s, i, p) == ScanFrom(s, i + 1, p.(quoted := false))
  {
    OneStep(s, i, p);
  }

  lemma QuotedStep(s: string, i: nat, c: char, p: Part)
    requires p.quoted && At(s, i, Quoted(c))
    ensures ScanFrom(s, i, p) == ScanFrom(s, i + |Quoted(c)|, p.(cell := p.cell + [c]))
  {
    assert s[i + 0] == Quoted(c)[0] && (c == '"' ==> s[i + 1] == Quoted(c)[1]);
    OneStep(s, i, p);
  }

  lemma {:induction false} PlainReads(s: string, i: nat, text: string, p: Part)
    requires !p.quoted && Writable(Field(text, false)) && At(s, i, text)
    ensures ScanFrom(s, i, p) == ScanFrom(s, i + |text|, p.(cell := p.cell + text))
    decreases |text|
  {
    if text == "" {
      assert p.cell + text == p.cell;
    } else {
      assert s[i] == text[0];
      OneStep(s, i, p);
      PlainReads(s, i + 1, text[1..], p.(cell := p.cell + [text[0]]));
      assert p.cell + [text[0]] + text[1..] == p.cell + text;
    }
  }

  lemma FieldReads(s: string, i: nat, f: Field, cells: seq<string>)
    requires Writable(f) && At(s, i, Write(f)) && (i + |Write(f)| < |s| ==> s[i + |Write(f)|] != '"')
    ensures ScanFrom(s, i, Part(false, "", cells)) == ScanFrom(s, i + |Write(f)|, Part(false, f.text, cells))
  {
    assert "" + f.text == f.text;
    if f.quoted {
      AtBoth(s, i, ['"'] + Doubled(f.text), ['"']);
      AtBoth(s, i, ['"'], Doubled(f.text));
      var end := i + 1 + |Doubled(f.text)|;
      assert s[i] == '"' && s[end] == '"' by { assert ['"'][0] == '"' && s[i + 0] == '"' && s[end + 0] == '"'; }
      OneStep(s, i, Part(false, "", cells));
      DoubledAt(s, i + 1, f.text, end);
      QuotedReads(s, i + 1, f.text, end, Part(true, "", cells));
    } else {
      PlainReads(s, i, f.text, Part(false, "", cells));
    }
  }

  lemma {:induction false} RowReads(s: string, i: nat, row: seq<Field>, cells: seq<string>)
    requires IsRow(row) && At(s, i, WriteRow(row)) && i + |WriteRow(row)| == |s|
    ensures ScanFrom(s, i, Part(false, "", cells)) == Scan(cells + Texts(row), |s|, false)
    decreases |row|
  {
    var w := Write(row[0]);
    if |row| == 1 {
      FieldReads(s, i, row[0], cells);
      assert Texts(row) == [row[0].text];
    } else {
      var comma := i + |w|;
      AtBoth(s, i, w + [','], WriteRow(row[1..]));
      AtBoth(s, i, w, [',']);
      assert s[comma] == ',' by { assert s[comma + 0] == [','][0]; }
      FieldReads(s, i, row[0], cells);
      OneStep(s, comma, Part(false, row[0].text, cells));
      RowReads(s, comma + 1, row[1..], cells + [row[0].text]);
      assert cells + [row[0].text] + Texts(row[1..]) == cells + Texts(row);
    }
  }

  function WriteRows(rows: seq<seq<Field>>): seq<string> {
    seq(|rows|, i requires 0 <= i < |rows| => WriteRow(rows[i]))
  }

  /** A written file reads back as its rows, whichever fields are quoted and whichever line break is used. */
  lemma WrittenReadsBack(rows: seq<seq<Field>>, newline: string, records: seq<Record>)
    requires IsNewline(newline) && forall i | 0 <= i < |rows| :: IsRow(rows[i])
    requires var text := Lines(WriteRows(rows), newline); AreRecords(text, records, 0, |text|)
    ensures |records| == |rows| && forall i | 0 <= i < |rows| :: records[i].cells == Texts(rows[i])
  {
    var lines := WriteRows(rows);
    forall i | 0 <= i < |rows| ensures IsClosed(lines[i]) && CellsOf(lines[i]) == Texts(rows[i]) {
      RowReads(lines[i], 0, rows[i], []);
      assert [] + Texts(rows[i]) == Texts(rows[i]);
    }
    if rows != [] {
      LinesReadBack(lines, newline, records);
    } else if records != [] {
      RecordNext("", records, 0);
    }
  }
}
