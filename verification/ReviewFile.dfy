/** The review sheet through its file: what survives the writing and the reading of the text. */
module ReviewFile {
  import opened Options
  import opened Text
  import opened Csv
  import opened Review

  lemma {:induction false} ValueAt(header: Record, r: Record, name: string, i: nat)
    requires i < |header| && header[i] == name && forall j | i < j < |header| :: header[j] != name
    ensures Value(header, r, name) == if i < |r| then r[i] else ""
  {
    var n := |header| - 1;
    if i < n {
      ValueAt(header[..n], r, name, i);
    }
  }

  lemma {:induction false} ValueHasNoBreak(header: Record, r: Record, name: string)
    requires BreakFree(r)
    ensures !HasBreak(Value(header, r, name))
  {
    if header != [] {
      ValueHasNoBreak(header[..|header| - 1], r, name);
    }
  }

  lemma ColumnsHaveNoBreaks()
    ensures BreakFree(COLUMNS) && forall d :: !HasBreak(Word(d))
  {
    assert forall c: char | c == '_' || 'a' <= c <= 'z' :: !IsBreak(c);
    assert forall i, k | 0 <= i < |COLUMNS| && 0 <= k < |COLUMNS[i]| ::
        COLUMNS[i][k] == '_' || 'a' <= COLUMNS[i][k] <= 'z';
  }

  /** Each column of the file holds what its name says. */
  lemma ColumnsHoldTheirNames(r: Row)
    ensures var record := RecordOf(r);
            && Value(COLUMNS, record, "finding_id") == r.id && Value(COLUMNS, record, "dossier") == r.dossier
            && Value(COLUMNS, record, "type") == r.kind && Value(COLUMNS, record, "severity") == r.severity
            && Value(COLUMNS, record, "note") == r.note && Value(COLUMNS, record, "quote_a") == r.quoteA
            && Value(COLUMNS, record, "quote_b") == r.quoteB && Value(COLUMNS, record, "explanation") == r.explanation
            && Value(COLUMNS, record, "decision")
               == (match r.decision case Pending => "pending" case Keep => "keep" case Drop => "drop")
  {
    var record := RecordOf(r);
    ValueAt(COLUMNS, record, "finding_id", 0);
    ValueAt(COLUMNS, record, "dossier", 1);
    ValueAt(COLUMNS, record, "type", 2);
    ValueAt(COLUMNS, record, "severity", 3);
    ValueAt(COLUMNS, record, "decision", 4);
    ValueAt(COLUMNS, record, "note", 5);
    ValueAt(COLUMNS, record, "quote_a", 6);
    ValueAt(COLUMNS, record, "quote_b", 7);
    ValueAt(COLUMNS, record, "explanation", 8);
  }

  /** The cells read back: a break within a note is lost. */
  function OneLine(c: Cells): Cells {
    c.(note := Unbroken(c.note))
  }

  lemma RecordIsRead(r: Row)
    requires !HasBreak(r.id)
    ensures CellsRead(COLUMNS, UnbrokenCells(RecordOf(r))) == OneLine(CellsOf(r))
  {
    var u := UnbrokenCells(RecordOf(r));
    ColumnsHaveNoBreaks();
    ValueAt(COLUMNS, u, "finding_id", 0);
    ValueAt(COLUMNS, u, "decision", 4);
    ValueAt(COLUMNS, u, "note", 5);
    UnbrokenIff(r.id);
    UnbrokenIff(Word(r.decision));
  }

  lemma {:induction false} RecordsAreRead(rows: seq<Row>, records: seq<Record>)
    requires |records| == |rows|
    requires forall i | 0 <= i < |rows| :: !HasBreak(rows[i].id) && records[i] == UnbrokenCells(RecordOf(rows[i]))
    ensures AllCells(COLUMNS, records) == seq(|rows|, i requires 0 <= i < |rows| => OneLine(CellsOf(rows[i])))
  {
    if rows != [] {
      RecordIsRead(rows[0]);
      RecordsAreRead(rows[1..], records[1..]);
    }
  }

  function OneLines(sheet: seq<Cells>): seq<Cells> {
    seq(|sheet|, i requires 0 <= i < |sheet| => OneLine(sheet[i]))
  }

  lemma SheetOfRecords(text: string, records: seq<Record>)
    requires Read(text) == records && records != [] && "finding_id" in records[0]
    ensures SheetRead(text) == Some(AllCells(records[0], records[1..]))
  {
    UniversalReads(text);
  }

  lemma SortedIdsAreOneLine(digest: Digest, audit: Audit)
    requires Tidy(digest)
    ensures forall r | r in SortRows(Rows(digest, audit)) :: !HasBreak(r.id)
  {
    var rows := Rows(digest, audit);
    SortedMembers(rows);
    forall r | r in rows
      ensures !HasBreak(r.id)
    {
      var m :| 0 <= m < |rows| && rows[m] == r;
      var n, x := ItemOfRow(digest, audit, m);
    }
  }

  lemma CellsAreRead(digest: Digest, audit: Audit)
    requires Tidy(digest)
    ensures AllCells(COLUMNS, UnbrokenRecords(Records(digest, audit))) == OneLines(Sheet(digest, audit))
  {
    var rows := SortRows(Rows(digest, audit));
    SortedIdsAreOneLine(digest, audit);
    forall i | 0 <= i < |rows|
      ensures !HasBreak(rows[i].id)
    {
      assert rows[i] in rows;
    }
    RecordsAreRead(rows, UnbrokenRecords(Records(digest, audit)));
  }

  /** If no cell of the audit breaks its line outside quotes, the exported file is read as the exported cells, but for
      the breaks within notes. */
  lemma FileIsRead(quotes: Quoting, digest: Digest, audit: Audit)
    requires Careful(quotes) && Tidy(digest) && NoStrays(quotes, Records(digest, audit))
    ensures SheetRead(FileOf(quotes, digest, audit)) == Some(OneLines(Sheet(digest, audit)))
  {
    var records := Records(digest, audit);
    ColumnsHaveNoBreaks();
    ReadsWritten(quotes, COLUMNS, Write(quotes, records));
    ReadBack(quotes, records);
    HeaderIsRead(COLUMNS);
    FindingIdIsAColumn();
    assert ([COLUMNS] + records)[1..] == records;
    assert ([COLUMNS] + UnbrokenRecords(records))[1..] == UnbrokenRecords(records);
    SheetOfRecords(FileOf(quotes, digest, audit), [COLUMNS] + UnbrokenRecords(records));
    CellsAreRead(digest, audit);
  }

  lemma HeaderIsRead(header: Record)
    requires BreakFree(header)
    ensures UnbrokenCells(header) == header
  {
    forall i | 0 <= i < |header|
      ensures Unbroken(header[i]) == header[i]
    {
      UnbrokenIff(header[i]);
    }
  }

  ghost predicate NotesOnOneLine(audit: Audit) {
    forall n, i | 0 <= n < |audit| && 0 <= i < |audit[n].findings| :: !HasBreak(audit[n].findings[i].note)
  }

  lemma {:induction false} CellsHaveNoBreaks(header: Record, records: seq<Record>)
    requires AllBreakFree(records)
    ensures forall c | c in AllCells(header, records) :: !HasBreak(c.note)
  {
    if records != [] {
      assert records[0] in records && forall r | r in records[1..] :: r in records;
      CellsHaveNoBreaks(header, records[1..]);
      ValueHasNoBreak(header, records[0], "note");
    }
  }

  lemma StripHasNoBreak(s: string)
    requires !HasBreak(s)
    ensures !HasBreak(Strip(s))
  {
    var a, b := StripSplit(s);
    forall i | 0 <= i < |Strip(s)|
      ensures !IsBreak(Strip(s)[i])
    {
      assert s[|a| + i] == Strip(s)[i];
    }
  }

  /** Whatever the file, the notes it brings are each on one line. */
  lemma ImportedNotesAreOneLine(digest: Digest, parse: Parser, audit: Audit, text: string)
    requires SheetRead(text).Some? && Readable(parse, SheetRead(text).value)
    ensures NotesOnOneLine(Applied(digest, Decisions(parse, SheetRead(text).value), audit))
  {
    var sheet := SheetRead(text).value;
    var d := Decisions(parse, sheet);
    var a := Applied(digest, d, audit);
    var records := Read(Universal(text));
    ReadHasNoBreaks(Universal(text));
    assert forall r | r in records[1..] :: r in records;
    CellsHaveNoBreaks(records[0], records[1..]);
    forall n, i | 0 <= n < |a| && 0 <= i < |a[n].findings|
      ensures !HasBreak(a[n].findings[i].note)
    {
      var id := FindingId(digest, audit[n].reference, audit[n].findings[i]);
      DecisionsAreLastRows(parse, sheet, id);
      if id in d {
        var k :| LastFor(sheet, id, k) && parse(sheet[k].decision).Some? && d[id] == Said(parse, sheet[k]);
        assert sheet[k] in sheet;
        StripHasNoBreak(sheet[k].note);
      }
    }
  }

  lemma OneLinesIfNotes(digest: Digest, audit: Audit)
    requires NotesOnOneLine(audit)
    ensures OneLines(Sheet(digest, audit)) == Sheet(digest, audit)
  {
    forall k | 0 <= k < |Sheet(digest, audit)|
      ensures OneLine(Sheet(digest, audit)[k]) == Sheet(digest, audit)[k]
    {
      var m := RowOfCells(digest, audit, k);
      var n, i := ItemOfRow(digest, audit, m);
      UnbrokenIff(audit[n].findings[i].note);
    }
  }

  /** Exporting a reviewed audit to its file and importing the file unchanged gives the audit back exactly when findings
      that share an identifier were decided alike and each note is one line without spaces at its ends. */
  lemma FileRoundTripIff(quotes: Quoting, digest: Digest, parse: Parser, audit: Audit)
    requires Careful(quotes) && Tidy(digest) && ReadsWords(parse) && NoStrays(quotes, Records(digest, audit))
    ensures var read := SheetRead(FileOf(quotes, digest, audit));
            && read.Some? && Readable(parse, read.value)
            && (Applied(digest, Decisions(parse, read.value), audit) == audit
                <==> Consistent(digest, audit) && Trimmed(audit) && NotesOnOneLine(audit))
  {
    var text, sheet := FileOf(quotes, digest, audit), Sheet(digest, audit);
    FileIsRead(quotes, digest, audit);
    RoundTripIff(digest, parse, audit);
    OneLinesAreReadable(parse, sheet);
    if NotesOnOneLine(audit) {
      OneLinesIfNotes(digest, audit);
    } else {
      ImportedNotesAreOneLine(digest, parse, audit, text);
    }
  }

  lemma OneLinesAreReadable(parse: Parser, sheet: seq<Cells>)
    ensures Readable(parse, OneLines(sheet)) <==> Readable(parse, sheet)
  {
    forall i | 0 <= i < |sheet|
      ensures OneLines(sheet)[i].id == sheet[i].id && OneLines(sheet)[i].decision == sheet[i].decision
    {
    }
  }

  /** Written as it is. */
  ghost predicate Plain(quotes: Quoting, s: string) {
    !HasBreak(s) && !quotes(s)
  }

  /** A break that no quote surrounds ends the record. */
  lemma StrayEndsRecord(x: string, c: char, y: string)
    requires !HasBreak(x) && IsBreak(c) && c != '\r'
    ensures Read(x + [c] + y) == Read(x + "\n" + y)
  {
    var s, t := x + [c] + y, x + "\n" + y;
    assert s[..|x|] == x && s[|x| + 1..] == y && t[..|x|] == x && t[|x| + 1..] == y;
    NoBreakNoEnd(x);
    FirstBreak(s, |x|, x);
    FirstBreak(t, |x|, x);
  }

  lemma {:induction false} NoBreakNoEnd(x: string)
    requires !HasBreak(x)
    ensures LineEnd(x) == |x|
  {
  }

  lemma WriteFirst(quotes: Quoting, f: string, r: Record)
    requires r != []
    ensures WriteCells(quotes, [f] + r) == WriteCell(quotes, f) + (";" + WriteCells(quotes, r))
  {
    assert ([f] + r)[1..] == r;
  }

  lemma JoinedHasNoBreak(x: string, y: string)
    requires !HasBreak(x) && !HasBreak(y)
    ensures !HasBreak(x + (";" + y))
  {
    forall i | 0 <= i < |x + (";" + y)|
      ensures !IsBreak((x + (";" + y))[i])
    {
    }
  }

  /** A row whose second cell holds a stray break, cut there. */
  lemma CutText(quotes: Quoting, id: string, x: string, c: char, y: string, more: Record)
    requires Plain(quotes, id) && Plain(quotes, y) && !quotes(x + [c] + y) && more != []
    ensures WriteRecord(quotes, [id] + ([x + [c] + y] + more))
            == id + (";" + x) + [c] + WriteRecord(quotes, [y] + more)
  {
    WriteFirst(quotes, id, [x + [c] + y] + more);
    WriteFirst(quotes, x + [c] + y, more);
    WriteFirst(quotes, y, more);
    CutAt(id, x, c, y, ";" + WriteCells(quotes, more));
  }

  lemma CutAt(id: string, x: string, c: char, y: string, w: string)
    ensures id + (";" + (x + [c] + y + w)) + "\n" == id + (";" + x) + [c] + (y + w + "\n")
  {
  }

  lemma ReadsPlainCells(quotes: Quoting, r: Record, rest: string)
    requires Careful(quotes) && forall i | 0 <= i < |r| :: Plain(quotes, r[i])
    ensures Read(WriteRecord(quotes, r) + rest) == [r] + Read(rest)
  {
    ReadsWritten(quotes, r, rest);
    forall i | 0 <= i < |r|
      ensures Unbroken(r[i]) == r[i]
    {
      UnbrokenIff(r[i]);
    }
    assert UnbrokenCells(r) == r;
  }

  lemma ReadsTwo(quotes: Quoting, first: Record, second: Record)
    requires Careful(quotes) && forall i | 0 <= i < |first| :: Plain(quotes, first[i])
    requires forall i | 0 <= i < |second| :: Plain(quotes, second[i])
    ensures Read(WriteRecord(quotes, first) + WriteRecord(quotes, second)) == [first, second]
  {
    ReadsPlainCells(quotes, first, WriteRecord(quotes, second));
    ReadsPlainCells(quotes, second, "");
    assert WriteRecord(quotes, second) + "" == WriteRecord(quotes, second);
  }

  /** The cell holds a break that the writer leaves outside quotes, and is otherwise plain. */
  ghost predicate StrayIn(quotes: Quoting, cell: string, x: string, c: char, y: string) {
    && cell == x + [c] + y && !quotes(cell) && Plain(quotes, x) && Plain(quotes, y)
    && IsBreak(c) && c != '\r'
  }

  /** A row of plain cells but for a stray break in the second one is read as two records. */
  lemma StrayCutsRow(quotes: Quoting, id: string, cell: string, x: string, c: char, y: string, more: Record)
    requires Careful(quotes) && Plain(quotes, id) && StrayIn(quotes, cell, x, c, y)
    requires more != [] && forall i | 0 <= i < |more| :: Plain(quotes, more[i])
    ensures Read(WriteRecord(quotes, [id] + ([cell] + more))) == [[id, x], [y] + more]
  {
    CutText(quotes, id, x, c, y, more);
    JoinedHasNoBreak(id, x);
    StrayEndsRecord(id + (";" + x), c, WriteRecord(quotes, [y] + more));
    WriteFirst(quotes, id, [x]);
    assert [id] + [x] == [id, x];
    ReadsTwo(quotes, [id, x], [y] + more);
  }

  lemma ColumnsRead(r: Record)
    ensures CellsRead(COLUMNS, r) == Cells(if |r| > 0 then r[0] else "", if |r| > 4 then r[4] else "",
                                           if |r| > 5 then r[5] else "")
  {
    ValueAt(COLUMNS, r, "finding_id", 0);
    ValueAt(COLUMNS, r, "decision", 4);
    ValueAt(COLUMNS, r, "note", 5);
  }

  lemma TwoCells(header: Record, r: Record, s: Record)
    requires r != [] && s != []
    ensures AllCells(header, [r, s]) == [CellsRead(header, r), CellsRead(header, s)]
  {
    assert [r, s][1..] == [s] && [s][1..] == [];
    assert AllCells(header, [s]) == [CellsRead(header, s)] + AllCells(header, []);
  }

  ghost predicate PlainItem(quotes: Quoting, f: Item) {
    && Plain(quotes, f.kind) && Plain(quotes, f.severity) && Plain(quotes, Word(f.decision)) && Plain(quotes, f.note)
    && Plain(quotes, f.quoteA) && Plain(quotes, f.quoteB) && Plain(quotes, f.explanation)
  }

  function OneFinding(dossier: string, f: Item): Audit {
    [Analysis(dossier, [f])]
  }

  /** The file of one finding. */
  lemma FileOfOne(quotes: Quoting, digest: Digest, dossier: string, f: Item)
    ensures FileOf(quotes, digest, OneFinding(dossier, f))
            == WriteRecord(quotes, COLUMNS) + WriteRecord(quotes, RecordOf(RowOf(digest, dossier, f)))
  {
    RecordsOfOne(digest, dossier, f);
    WriteTwo(quotes, COLUMNS, RecordOf(RowOf(digest, dossier, f)));
  }

  lemma RecordsOfOne(digest: Digest, dossier: string, f: Item)
    ensures Records(digest, OneFinding(dossier, f)) == [RecordOf(RowOf(digest, dossier, f))]
  {
    var audit, row := OneFinding(dossier, f), RowOf(digest, dossier, f);
    assert audit[..0] == [] && RowsOf(digest, audit[0]) == [row] && Rows(digest, audit) == [row];
    assert SortRows([row]) == [row] by {
      assert [row][1..] == [];
    }
  }

  lemma WriteTwo(quotes: Quoting, r: Record, s: Record)
    ensures Write(quotes, [r] + [s]) == WriteRecord(quotes, r) + WriteRecord(quotes, s)
  {
    WriteSnoc(quotes, [r], s);
    WriteSnoc(quotes, [], r);
    assert [] + [r] == [r];
  }

  lemma ReadsSheet(quotes: Quoting, header: Record, record: Record, r: Record, s: Record)
    requires Careful(quotes) && BreakFree(header) && "finding_id" in header
    requires r != [] && s != [] && Read(WriteRecord(quotes, record)) == [r, s]
    ensures SheetRead(WriteRecord(quotes, header) + WriteRecord(quotes, record))
            == Some([CellsRead(header, r), CellsRead(header, s)])
  {
    HeaderIsRead(header);
    ReadsWritten(quotes, header, WriteRecord(quotes, record));
    assert [header] + [r, s] == [header, r, s] && [header, r, s][1..] == [r, s];
    SheetOfRecords(WriteRecord(quotes, header) + WriteRecord(quotes, record), [header, r, s]);
    TwoCells(header, r, s);
  }

  /** The cells that follow the dossier. */
  function After(f: Item): Record {
    [f.kind, f.severity, Word(f.decision), f.note, f.quoteA, f.quoteB, f.explanation]
  }

  lemma RecordParts(digest: Digest, dossier: string, f: Item)
    ensures RecordOf(RowOf(digest, dossier, f)) == [FindingId(digest, dossier, f)] + ([dossier] + After(f))
  {
  }

  /** A finding whose only stray break is in the name of its dossier. */
  ghost predicate StrayName(quotes: Quoting, digest: Digest, dossier: string, x: string, c: char, y: string, f: Item) {
    && StrayIn(quotes, dossier, x, c, y) && PlainItem(quotes, f) && Plain(quotes, FindingId(digest, dossier, f))
  }

  ghost predicate NoDecisions(sheet: seq<Cells>) {
    forall i | 0 <= i < |sheet| :: sheet[i].decision == ""
  }

  /** Two rows are read from the file of such a finding, and neither decides. */
  lemma CutFile(quotes: Quoting, digest: Digest, dossier: string, x: string, c: char, y: string, f: Item)
    returns (sheet: seq<Cells>)
    requires Careful(quotes) && StrayName(quotes, digest, dossier, x, c, y, f) && f.note == ""
    ensures SheetRead(FileOf(quotes, digest, OneFinding(dossier, f))) == Some(sheet) && NoDecisions(sheet)
  {
    var id, more := FindingId(digest, dossier, f), After(f);
    StrayCutsRow(quotes, id, dossier, x, c, y, more);
    FileOfOne(quotes, digest, dossier, f);
    RecordParts(digest, dossier, f);
    FindingIdIsAColumn();
    ReadsSheet(quotes, COLUMNS, [id] + ([dossier] + more), [id, x], [y] + more);
    sheet := CutCells(id, x, y, f);
  }

  lemma CutCells(id: string, x: string, y: string, f: Item) returns (sheet: seq<Cells>)
    requires f.note == ""
    ensures sheet == [CellsRead(COLUMNS, [id, x]), CellsRead(COLUMNS, [y] + After(f))] && NoDecisions(sheet)
  {
    ColumnsRead([id, x]);
    ColumnsRead([y] + After(f));
    sheet := [CellsRead(COLUMNS, [id, x]), CellsRead(COLUMNS, [y] + After(f))];
  }

  lemma FindingIdIsAColumn()
    ensures BreakFree(COLUMNS) && "finding_id" in COLUMNS
  {
    ColumnsHaveNoBreaks();
    assert COLUMNS[0] == "finding_id";
  }

  ghost predicate WellDecided(audit: Audit) {
    Settled(audit) && Trimmed(audit) && NotesOnOneLine(audit)
  }

  /** The sheet is read without complaint, and a finding is left undecided. */
  ghost predicate Undecides(digest: Digest, parse: Parser, sheet: seq<Cells>, audit: Audit) {
    Readable(parse, sheet) && !Settled(Applied(digest, Decisions(parse, sheet), audit))
  }

  /** A break that the writer leaves outside quotes does worse: a finding without a note, in a dossier whose name holds
      one, was kept, and after its file is exported and imported unchanged it is pending again. */
  lemma StrayBreakUndecides(quotes: Quoting, digest: Digest, parse: Parser, dossier: string, x: string, c: char,
                            y: string, f: Item) returns (sheet: seq<Cells>)
    requires Careful(quotes) && StrayName(quotes, digest, dossier, x, c, y, f)
    requires parse("") == Some(Pending) && f.decision == Keep && f.note == ""
    ensures SheetRead(FileOf(quotes, digest, OneFinding(dossier, f))) == Some(sheet)
    ensures WellDecided(OneFinding(dossier, f)) && Undecides(digest, parse, sheet, OneFinding(dossier, f))
  {
    sheet := CutFile(quotes, digest, dossier, x, c, y, f);
    BlanksUndecide(digest, parse, sheet, dossier, f);
  }

  lemma BlanksUndecide(digest: Digest, parse: Parser, sheet: seq<Cells>, dossier: string, f: Item)
    requires f.note == "" && f.decision == Keep
    requires parse("") == Some(Pending) && NoDecisions(sheet)
    ensures WellDecided(OneFinding(dossier, f)) && Undecides(digest, parse, sheet, OneFinding(dossier, f))
  {
    UndecidedByBlanks(parse, sheet, FindingId(digest, dossier, f));
    OneItem(digest, Decisions(parse, sheet), dossier, f);
  }

  lemma OneItem(digest: Digest, decisions: map<string, (Decision, string)>, dossier: string, f: Item)
    requires f.note == "" && f.decision == Keep
    requires var id := FindingId(digest, dossier, f); id in decisions ==> decisions[id].0 == Pending
    ensures var audit := OneFinding(dossier, f);
            && Settled(audit) && Trimmed(audit) && NotesOnOneLine(audit)
            && !Settled(Applied(digest, decisions, audit))
  {
    var audit := OneFinding(dossier, f);
    var a := Applied(digest, decisions, audit);
    assert a[0].findings[0] == Decided(digest, decisions, dossier, f);
  }

  lemma UndecidedByBlanks(parse: Parser, sheet: seq<Cells>, id: string)
    requires parse("") == Some(Pending) && NoDecisions(sheet)
    ensures Readable(parse, sheet) && (id in Decisions(parse, sheet) ==> Decisions(parse, sheet)[id].0 == Pending)
  {
    if id in Decisions(parse, sheet) {
      var i := LastRow(parse, sheet, id);
    }
  }
}
