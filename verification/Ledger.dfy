/**
 * The ledger CSV cut to the entries of a period, each kept byte for byte under the header.
 */
module Ledger {
  import opened Options
  import opened Csv

  /** From inclusive, to exclusive. */
  datatype Range = Range(from: Option<real>, to: Option<real>)

  datatype Cut = Cut(csv: string, entries: nat)

  predicate InRange(range: Range, ts: Option<real>) {
    ts.Some? && (range.from.None? || ts.value >= range.from.value) && (range.to.None? || ts.value < range.to.value)
  }

  /** `number`: the finite number a cell reads as, if it does. */
  predicate IsKept(r: Record, column: nat, range: Range, number: string -> Option<real>) {
    column < |r.cells| && InRange(range, number(r.cells[column]))
  }

  function Kept(records: seq<Record>, column: nat, range: Range, number: string -> Option<real>): seq<Record> {
    if records == [] then []
    else
      var earlier, last := Kept(records[..|records| - 1], column, range, number), records[|records| - 1];
      if IsKept(last, column, range, number) then earlier + [last] else earlier
  }

  /** The record's time stands in the column, and is not before the period nor at its end or after. */
  predicate IsOfPeriod(r: Record, column: nat, range: Range, number: string -> Option<real>) {
    && column < |r.cells|
    && match number(r.cells[column])
       case None => false
       case Some(ts) =>
         && (match range.from case None => true case Some(from) => !(ts < from))
         && (match range.to case None => true case Some(to) => !(to <= ts))
  }

  /** These positions, in order, are those of the records of the period. */
  ghost predicate ArePlaces(places: seq<nat>, records: seq<Record>, column: nat, range: Range,
                            number: string -> Option<real>) {
    && (forall i, j | 0 <= i < j < |places| :: places[i] < places[j])
    && forall k: nat :: k in places <==> k < |records| && IsOfPeriod(records[k], column, range, number)
  }

  /** The records at these positions, one after the other. */
  predicate ArePicked(places: seq<nat>, records: seq<Record>, picked: seq<Record>) {
    |picked| == |places| && forall k | 0 <= k < |places| :: places[k] < |records| && picked[k] == records[places[k]]
  }

  /** The kept records are those of the period, each once, in order. */
  lemma {:induction false} KeptExactly(records: seq<Record>, column: nat, range: Range, number: string -> Option<real>)
    returns (places: seq<nat>)
    ensures ArePlaces(places, records, column, range, number)
    ensures ArePicked(places, records, Kept(records, column, range, number))
  {
    places := [];
    if records != [] {
      var n := |records| - 1;
      places := KeptExactly(records[..n], column, range, number);
      OnePlaceMore(places, records, column, range, number);
      OnePickedMore(places, records, Kept(records[..n], column, range, number));
      assert IsOfPeriod(records[n], column, range, number) <==> IsKept(records[n], column, range, number);
      if IsOfPeriod(records[n], column, range, number) { places := places + [n]; }
    }
  }

  lemma OnePickedMore(places: seq<nat>, records: seq<Record>, picked: seq<Record>)
    requires records != [] && ArePicked(places, records[..|records| - 1], picked)
    ensures ArePicked(places, records, picked)
    ensures ArePicked(places + [|records| - 1], records, picked + [records[|records| - 1]])
  {
  }

  lemma OnePlaceMore(places: seq<nat>, records: seq<Record>, column: nat, range: Range, number: string -> Option<real>)
    requires records != [] && ArePlaces(places, records[..|records| - 1], column, range, number)
    ensures var n := |records| - 1;
            ArePlaces(if IsOfPeriod(records[n], column, range, number) then places + [n]
              else places, records, column, range, number)
  {
    var n := |records| - 1;
    forall k | 0 <= k < |places| ensures places[k] < n { assert places[k] in places; }
    var more := if IsOfPeriod(records[n], column, range, number) then places + [n] else places;
    forall k: nat ensures k in more <==> k < |records| && IsOfPeriod(records[k], column, range, number) {
      assert k in more <==> k in places || (k == n && IsOfPeriod(records[n], column, range, number));
      if k < n { assert records[..n][k] == records[k]; }
    }
  }

  function IndexOf(cells: seq<string>, name: string): (r: Option<nat>)
    ensures r.Some? ==> r.value < |cells| && cells[r.value] == name && name !in cells[..r.value]
    ensures r.None? ==> name !in cells
  {
    if cells == [] then None
    else if cells[0] == name then Some(0)
    else
      var rest := IndexOf(cells[1..], name);
      if rest.None? then None else Some(rest.value + 1)
  }

  predicate HasCrLf(text: string) { exists i | 0 < i < |text| :: text[i - 1] == '\r' && text[i] == '\n' }

  function NewlineOf(text: string): string { if HasCrLf(text) then "\r\n" else "\n" }

  /** Somewhere a CR is followed by an LF. */
  ghost predicate BreaksWithCr(text: string) {
    exists before: string, after: string :: text == before + ['\r', '\n'] + after
  }

  /** The line break is CR LF if the text has one anywhere, else LF. */
  lemma NewlineExactly(text: string)
    ensures NewlineOf(text) == if BreaksWithCr(text) then ['\r', '\n'] else ['\n']
  {
    if HasCrLf(text) {
      var i :| 0 < i < |text| && text[i - 1] == '\r' && text[i] == '\n';
      assert text == text[..i - 1] + ['\r', '\n'] + text[i + 1..];
    }
    if BreaksWithCr(text) {
      var before, after :| text == before + ['\r', '\n'] + after;
      assert text[|before| + 1 - 1] == '\r' && text[|before| + 1] == '\n';
    }
  }

  function Slices(text: string, records: seq<Record>): (r: seq<string>)
    ensures |r| == |records| && forall k | 0 <= k < |r| :: r[k] == Slice(text, records[k])
  {
    seq(|records|, k requires 0 <= k < |records| => Slice(text, records[k]))
  }

  function Join(parts: seq<string>, separator: string): string {
    if parts == [] then "" else if |parts| == 1 then parts[0]
      else Join(parts[..|parts| - 1], separator) + separator + parts[|parts| - 1]
  }

  lemma {:induction false} JoinIsLines(parts: seq<string>, newline: string)
    requires parts != []
    ensures Join(parts, newline) + newline == Lines(parts, newline)
  {
    if |parts| > 1 {
      JoinIsLines(parts[..|parts| - 1], newline);
    } else {
      assert parts[..0] == [];
    }
  }

  /** The header and the kept entries. */
  function HeaderAndKept(records: seq<Record>, column: nat, range: Range, number: string -> Option<real>): seq<Record>
    requires records != []
  {
    [records[0]] + Kept(records[1..], column, range, number)
  }

  /** What is made of a text with these records. */
  function CutOf(text: string, records: seq<Record>, range: Range, number: string -> Option<real>): Option<Cut> {
    if records == [] then None
    else
      var column := IndexOf(records[0].cells, "ts");
      if column.None? then None
      else
        var kept := HeaderAndKept(records, column.value, range, number);
        Some(Cut(Lines(Slices(text, kept), NewlineOf(text)), |kept| - 1))
  }

  method Keep(records: seq<Record>, column: nat, range: Range, number: string -> Option<real>)
    returns (kept: seq<Record>)
    ensures kept == Kept(records, column, range, number)
  {
    kept := [];
    for i := 0 to |records|
      invariant kept == Kept(records[..i], column, range, number)
    {
      assert records[..i + 1][..i] == records[..i];
      if IsKept(records[i], column, range, number) { kept := kept + [records[i]]; }
    }
    assert records[..|records|] == records;
  }

  /** What is made of a text, whatever lists its records: there is one list. */
  ghost predicate IsCut(text: string, range: Range, number: string -> Option<real>, r: Option<Cut>) {
    && (exists records :: AreRecords(text, records, 0, |text|))
    && (forall records | AreRecords(text, records, 0, |text|) :: r == CutOf(text, records, range, number))
  }

  method LedgerForPeriod(csv: string, range: Range, number: string -> Option<real>) returns (r: Option<Cut>)
    ensures IsCut(csv, range, number, r)
  {
    var read := CsvRecords(csv);
    forall records | AreRecords(csv, records, 0, |csv|) ensures records == read {
      RecordsUnique(csv, records, read, |records|);
    }
    if read == [] { return None; }
    var column := IndexOf(read[0].cells, "ts");
    if column.None? { return None; }
    var kept := Keep(read[1..], column.value, range, number);
    var newline := NewlineOf(csv);
    JoinIsLines(Slices(csv, [read[0]] + kept), newline);
    r := Some(Cut(Join(Slices(csv, [read[0]] + kept), newline) + newline, |kept|));
  }

  // ---- Reading it again --------------------------------------------------------------------

  /** A record that ends inside quotes. */
  predicate IsOpen(text: string, r: Record)
    requires r.start <= |text|
  {
    ScanFrom(text, r.start, NOTHING).open
  }

  lemma SliceIsWhole(text: string, r: Record)
    requires IsRecord(text, r)
    ensures IsWhole(Slice(text, r)) && CellsOf(Slice(text, r)) == r.cells
        && (IsClosed(Slice(text, r)) <==> !IsOpen(text, r))
    ensures r.end < |text| ==> !IsOpen(text, r)
  {
    var before, slice := text[..r.start], text[r.start..r.end];
    SliceReads(text, r.start, NOTHING);
    ReadsAnywhere(before, slice, 0, NOTHING);
    assert text[..r.end] == before + slice;
  }

  /** Only the last entry kept can be the last of the text. */
  lemma {:induction false} KeptEarlier(records: seq<Record>, column: nat, range: Range, number: string -> Option<real>)
    ensures var kept := Kept(records, column, range, number);
            (forall r | r in kept :: r in records) && (forall r | r in Front(kept) :: r in Front(records))
  {
    if records != [] {
      KeptEarlier(Front(records), column, range, number);
      assert forall r | r in Front(records) :: r in records;
      var earlier, last := Kept(Front(records), column, range, number), records[|records| - 1];
      assert Front(earlier + [last]) == earlier;
      assert forall r | r in Front(earlier) :: r in earlier;
    }
  }

  function Front(records: seq<Record>): seq<Record> { if records == [] then [] else records[..|records| - 1] }

  lemma EarlierClosed(text: string, records: seq<Record>, r: Record)
    requires AreRecords(text, records, 0, |text|) && records != [] && r in records
    ensures IsRecord(text, r) && (r in Front(records) ==> !IsOpen(text, r))
  {
    var i :| 0 <= i < |records| && records[i] == r;
    RecordNext(text, records, i);
    if r in Front(records) {
      var j :| 0 <= j < |records| - 1 && records[j] == r;
      RecordNext(text, records, j);
      SliceIsWhole(text, r);
    }
  }

  lemma KeptAreLines(text: string, records: seq<Record>, column: nat, range: Range, number: string -> Option<real>)
    requires AreRecords(text, records, 0, |text|) && records != []
    ensures var kept := HeaderAndKept(records, column, range, number);
            && (forall k | 0 <= k < |kept| :: IsRecord(text, kept[k]))
            && AreLines(Slices(text, kept))
  {
    var kept := HeaderAndKept(records, column, range, number);
    forall k | 0 <= k < |kept|
      ensures IsRecord(text, kept[k]) && IsWhole(Slice(text, kept[k]))
          && (k < |kept| - 1 ==> IsClosed(Slice(text, kept[k])))
    {
      KeptFromText(records, column, range, number, k);
      EarlierClosed(text, records, kept[k]);
      SliceIsWhole(text, kept[k]);
    }
  }

  lemma TailIn(records: seq<Record>)
    requires records != []
    ensures forall r | r in records[1..] :: r in records
    ensures forall r | r in Front(records[1..]) :: r in Front(records)
  {
    forall r | r in Front(records[1..]) ensures r in Front(records) {
      var i :| 0 <= i < |records| - 2 && Front(records[1..])[i] == r;
      assert Front(records)[i + 1] == r;
    }
  }

  lemma KeptFromText(records: seq<Record>, column: nat, range: Range, number: string -> Option<real>, k: nat)
    requires records != [] && k < |HeaderAndKept(records, column, range, number)|
    ensures var kept := HeaderAndKept(records, column, range, number);
            kept[k] in records && (k < |kept| - 1 ==> kept[k] in Front(records))
  {
    var rest := records[1..];
    var later := Kept(rest, column, range, number);
    KeptEarlier(rest, column, range, number);
    if k == 0 {
      assert rest != [] ==> Front(records)[0] == records[0];
    } else {
      assert later[k - 1] in later && (k - 1 < |later| - 1 ==> Front(later)[k - 1] == later[k - 1]);
      assert later[k - 1] in rest;
      TailIn(records);
    }
  }

  /**
   * Read again, the cut has the header and exactly the kept entries with the cells they had, if
   * and only if the last of them does not end inside quotes.
   */
  lemma CutReadsBack(text: string, records: seq<Record>, range: Range, number: string -> Option<real>,
                     again: seq<Record>)
    requires AreRecords(text, records, 0, |text|) && CutOf(text, records, range, number).Some?
    requires var cut := CutOf(text, records, range, number).value; AreRecords(cut.csv, again, 0, |cut.csv|)
    ensures var kept := HeaderAndKept(records, IndexOf(records[0].cells, "ts").value, range, number);
            && |again| == |kept|
            && IsRecord(text, kept[|kept| - 1])
            && ((forall k | 0 <= k < |kept| :: again[k].cells == kept[k].cells) <==> !IsOpen(text, kept[|kept| - 1]))
  {
    var column, newline := IndexOf(records[0].cells, "ts").value, NewlineOf(text);
    var kept := HeaderAndKept(records, column, range, number);
    var lines := Slices(text, kept);
    KeptAreLines(text, records, column, range, number);
    forall k | 0 <= k < |kept|
      ensures CellsOf(lines[k]) == kept[k].cells && (IsClosed(lines[k]) <==> !IsOpen(text, kept[k]))
    {
      SliceIsWhole(text, kept[k]);
    }
    LinesReadBack(lines, newline, again);
  }

  /** `ts`, a line break, and an entry whose quote is never closed. */
  predicate IsUnclosed(s: string) {
    |s| == 5 && s[0] == 't' && s[1] == 's' && s[2] == '\n' && s[3] == '"' && s[4] == '1'
  }

  /** The entry of that file is kept, and its cell changes. */
  lemma UnclosedChanges(text: string, records: seq<Record>, number: string -> Option<real>, again: seq<Record>)
    requires IsUnclosed(text) && AreRecords(text, records, 0, 5) && number("1").Some?
    requires var cut := CutOf(text, records, Range(None, None), number); cut.Some? ==>
        AreRecords(cut.value.csv, again, 0, |cut.value.csv|)
    ensures CutOf(text, records, Range(None, None), number).Some? && |again| == |records| == 2
    ensures !(forall k | 0 <= k < 2 :: again[k].cells == records[k].cells)
  {
    UnclosedRecords(text, records);
    UnclosedKept(records, number);
    OpenChanges(text, records, Range(None, None), number, again);
  }

  lemma UnclosedKept(records: seq<Record>, number: string -> Option<real>)
    requires |records| == 2 && records[0].cells == ["ts"] && records[1].cells == ["1"] && number("1").Some?
    ensures IndexOf(records[0].cells, "ts") == Some(0)
        && HeaderAndKept(records, 0, Range(None, None), number) == records
  {
    assert records[1..] == [records[1]] && records == [records[0], records[1]];
    assert records[0].cells[0] == "ts" && records[1].cells[0] == "1";
    KeptOne(records[1], 0, Range(None, None), number);
  }

  lemma OpenChanges(text: string, records: seq<Record>, range: Range, number: string -> Option<real>,
                    again: seq<Record>)
    requires AreRecords(text, records, 0, |text|) && records != []
    requires IndexOf(records[0].cells, "ts") == Some(0) && HeaderAndKept(records, 0, range, number) == records
    requires var last := records[|records| - 1]; IsRecord(text, last) && IsOpen(text, last)
    requires var cut := CutOf(text, records, range, number); cut.Some? ==>
        AreRecords(cut.value.csv, again, 0, |cut.value.csv|)
    ensures CutOf(text, records, range, number).Some? && |again| == |records|
    ensures !(forall k | 0 <= k < |records| :: again[k].cells == records[k].cells)
  {
    CutReadsBack(text, records, range, number, again);
  }

  lemma UnclosedRecords(text: string, records: seq<Record>)
    requires IsUnclosed(text) && AreRecords(text, records, 0, 5)
    ensures |records| == 2 && records[0].cells == ["ts"] && records[1].cells == ["1"] && IsRecord(text, records[1])
        && IsOpen(text, records[1])
  {
    HeaderReads(text);
    EntryReads(text);
    RecordNext(text, records, 0);
    assert IsRecordAt(text, records, 0, 0);
    RecordNext(text, records, 1);
  }

  lemma KeptOne(r: Record, column: nat, range: Range, number: string -> Option<real>)
    requires IsKept(r, column, range, number)
    ensures Kept([r], column, range, number) == [r]
  {
    assert [r][..0] == [];
  }

  lemma HeaderReads(text: string)
    requires IsUnclosed(text)
    ensures ScanFrom(text, 0, NOTHING) == Scan(["ts"], 2, false)
  {
    PlainReads(text, 0, "ts", NOTHING);
    assert "" + "ts" == "ts";
  }

  lemma EntryReads(text: string)
    requires IsUnclosed(text)
    ensures ScanFrom(text, 3, NOTHING) == Scan(["1"], 5, true)
  {
    OneStep(text, 3, NOTHING);
    RestInside(text, 4, Part(true, "", []));
    assert "" + text[4..] == "1";
  }

  // ---- Adjacent periods --------------------------------------------------------------------

  lemma {:induction false} KeptAddsUp(records: seq<Record>, column: nat, from: Option<real>, mid: real,
                                      to: Option<real>, number: string -> Option<real>)
    requires (from.Some? ==> from.value <= mid) && (to.Some? ==> mid <= to.value)
    ensures |Kept(records, column, Range(from, Some(mid)), number)|
        + |Kept(records, column, Range(Some(mid), to), number)|
            == |Kept(records, column, Range(from, to), number)|
  {
    if records != [] { KeptAddsUp(records[..|records| - 1], column, from, mid, to, number); }
  }

  /** The entries of two adjacent periods add up to those of their union. */
  lemma PeriodsAddUp(text: string, records: seq<Record>, from: Option<real>, mid: real, to: Option<real>,
                     number: string -> Option<real>)
    requires (from.Some? ==> from.value <= mid) && (to.Some? ==> mid <= to.value)
    ensures var a, b, both := CutOf(text, records, Range(from, Some(mid)), number),
        CutOf(text, records, Range(Some(mid), to), number), CutOf(text, records, Range(from, to), number);
            (a.Some? <==> both.Some?) && (b.Some? <==> both.Some?)
              && (both.Some? ==> a.value.entries + b.value.entries == both.value.entries)
  {
    if records != [] && IndexOf(records[0].cells, "ts").Some? {
      KeptAddsUp(records[1..], IndexOf(records[0].cells, "ts").value, from, mid, to, number);
    }
  }
}
