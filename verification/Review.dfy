/** Human review of the findings before publication (`inconsistencies/review.py`). The digest of a finding, the
    lowercasing of a word and the choice of the cells that are quoted are parameters. */
module Review {
  import opened Options
  import opened Text
  import opened Joins
  import opened Csv

  datatype Decision = Pending | Keep | Drop

  datatype Item = Item(kind: string, severity: string, quoteA: string, quoteB: string, explanation: string,
                       decision: Decision, note: string)

  datatype Analysis = Analysis(reference: string, findings: seq<Item>)

  type Audit = seq<Analysis>

  datatype Row = Row(id: string, dossier: string, kind: string, severity: string, quoteA: string, quoteB: string,
                     explanation: string, decision: Decision, note: string)

  /** The cells of a row that are read back. */
  datatype Cells = Cells(id: string, decision: string, note: string)

  type Digest = string -> string

  /** What the proofs use of a digest: it is one line, neither empty nor surrounded by spaces. */
  ghost predicate Tidy(digest: Digest) {
    forall s :: digest(s) != "" && Strip(digest(s)) == digest(s) && !HasBreak(digest(s))
  }

  function Material(dossier: string, f: Item): string {
    dossier + "|" + (f.kind + "|" + (f.quoteA + "|" + f.quoteB))
  }

  function FindingId(digest: Digest, dossier: string, f: Item): string {
    digest(Material(dossier, f))
  }

  // ---- The rows -----------------------------------------------------------------------------------------------------

  function RowOf(digest: Digest, dossier: string, f: Item): Row {
    var id := FindingId(digest, dossier, f);
    Row(id, dossier, f.kind, f.severity, f.quoteA, f.quoteB, f.explanation, f.decision, f.note)
  }

  function RowsOf(digest: Digest, a: Analysis): seq<Row> {
    seq(|a.findings|, i requires 0 <= i < |a.findings| => RowOf(digest, a.reference, a.findings[i]))
  }

  function Rows(digest: Digest, audit: Audit): seq<Row> {
    if audit == [] then [] else Rows(digest, audit[..|audit| - 1]) + RowsOf(digest, audit[|audit| - 1])
  }

  /** The row of a finding: its identifier digests the dossier, the type and the two quotes. */
  lemma RowIs(digest: Digest, dossier: string, f: Item)
    ensures var r := RowOf(digest, dossier, f);
            && r.id == digest(dossier + "|" + f.kind + "|" + f.quoteA + "|" + f.quoteB)
            && r.dossier == dossier && r.kind == f.kind && r.severity == f.severity && r.explanation == f.explanation
            && r.quoteA == f.quoteA && r.quoteB == f.quoteB && r.decision == f.decision && r.note == f.note
  {
    assert Material(dossier, f) == dossier + "|" + f.kind + "|" + f.quoteA + "|" + f.quoteB;
  }

  /** The rows of one dossier, and of one dossier after another. */
  lemma RowsOfOne(digest: Digest, x: Analysis)
    ensures |Rows(digest, [x])| == |x.findings|
    ensures forall i | 0 <= i < |x.findings| :: Rows(digest, [x])[i] == RowOf(digest, x.reference, x.findings[i])
  {
    assert [x][..0] == [] && Rows(digest, []) == [];
  }

  lemma {:induction false} RowsConcat(digest: Digest, a: Audit, b: Audit)
    ensures Rows(digest, a + b) == Rows(digest, a) + Rows(digest, b)
  {
    if b == [] {
      assert a + b == a;
    } else {
      var n := |b| - 1;
      RowsConcat(digest, a, b[..n]);
      RowsSnoc(digest, a + b[..n], b[n]);
      RowsSnoc(digest, b[..n], b[n]);
      assert a + b == (a + b[..n]) + [b[n]] && b == b[..n] + [b[n]];
      Regroup(Rows(digest, a), Rows(digest, b[..n]), RowsOf(digest, b[n]));
    }
  }

  lemma RowsSnoc(digest: Digest, a: Audit, x: Analysis)
    ensures Rows(digest, a + [x]) == Rows(digest, a) + RowsOf(digest, x)
  {
    assert (a + [x])[..|a|] == a;
  }

  // ---- The order of the sheet ------------------------------------------------------------------------------------

  function SeverityOrder(severity: string): nat {
    if severity == "high" then 0 else if severity == "medium" then 1 else if severity == "low" then 2 else 9
  }

  /** Strings compare by their first difference, a prefix before what it begins. */
  predicate TextLess(a: string, b: string) {
    b != [] && (a == [] || a[0] < b[0] || (a[0] == b[0] && TextLess(a[1..], b[1..])))
  }

  lemma {:induction false} TextOrder(a: string, b: string, c: string)
    ensures TextLess(a, c) ==> TextLess(a, b) || TextLess(b, c)
    ensures a == b || TextLess(a, b) || TextLess(b, a)
    ensures !(TextLess(a, b) && TextLess(b, a))
  {
    if a != [] && b != [] {
      TextOrder(a[1..], b[1..], if c == [] then [] else c[1..]);
      assert a == [a[0]] + a[1..] && b == [b[0]] + b[1..];
    }
  }

  /** Worst severity first, then by dossier and type. */
  predicate KeyLess(r: Row, s: Row) {
    var x, y := SeverityOrder(r.severity), SeverityOrder(s.severity);
    x < y || (x == y && (TextLess(r.dossier, s.dossier) || (r.dossier == s.dossier && TextLess(r.kind, s.kind))))
  }

  predicate SameKey(r: Row, s: Row) {
    SeverityOrder(r.severity) == SeverityOrder(s.severity) && r.dossier == s.dossier && r.kind == s.kind
  }

  lemma KeyOrder(r: Row, s: Row, t: Row)
    ensures KeyLess(r, t) ==> KeyLess(r, s) || KeyLess(s, t)
    ensures SameKey(r, s) <==> !KeyLess(r, s) && !KeyLess(s, r)
    ensures !(KeyLess(r, s) && KeyLess(s, r))
  {
    TextOrder(r.dossier, s.dossier, t.dossier);
    TextOrder(s.dossier, t.dossier, r.dossier);
    TextOrder(r.kind, s.kind, t.kind);
    TextOrder(r.dossier, r.dossier, r.dossier);
    TextOrder(r.kind, r.kind, r.kind);
  }

  /** Alphabetical order, by the first difference. */
  lemma {:induction false} TextLessIs(p: string, a: string, b: string)
    ensures TextLess(p + a, p + b) <==> TextLess(a, b)
    ensures a == [] && b != [] ==> TextLess(p + a, p + b) && !TextLess(p + b, p + a)
    ensures a != [] && b != [] && a[0] < b[0] ==> TextLess(p + a, p + b) && !TextLess(p + b, p + a)
  {
    if p == [] {
      assert p + a == a && p + b == b;
    } else {
      TextLessIs(p[1..], a, b);
      assert (p + a)[1..] == p[1..] + a && (p + b)[1..] == p[1..] + b;
    }
  }

  /** The library sort: insertion before the first row of a key that is not smaller. */
  function InsertRow(r: Row, s: seq<Row>): seq<Row> {
    if s == [] || !KeyLess(s[0], r) then [r] + s else [s[0]] + InsertRow(r, s[1..])
  }

  function SortRows(rows: seq<Row>): seq<Row> {
    if rows == [] then [] else InsertRow(rows[0], SortRows(rows[1..]))
  }

  ghost predicate Ordered(s: seq<Row>) {
    forall i, j | 0 <= i < j < |s| :: !KeyLess(s[j], s[i])
  }

  /** The rows of one key, in order. */
  function OfKey(s: seq<Row>, key: Row): seq<Row> {
    if s == [] then [] else (if SameKey(s[0], key) then [s[0]] else []) + OfKey(s[1..], key)
  }

  lemma {:induction false} InsertRowKeeps(r: Row, s: seq<Row>)
    ensures multiset(InsertRow(r, s)) == multiset(s) + multiset{r}
  {
    if s != [] && KeyLess(s[0], r) {
      InsertRowKeeps(r, s[1..]);
      assert s == [s[0]] + s[1..];
    }
  }

  lemma {:induction false} InsertRowOrders(r: Row, s: seq<Row>)
    requires Ordered(s)
    ensures Ordered(InsertRow(r, s))
  {
    if s == [] || !KeyLess(s[0], r) {
      forall t | t in multiset(s)
        ensures !KeyLess(t, r)
      {
        var j :| 0 <= j < |s| && s[j] == t;
        KeyOrder(t, s[0], r);
      }
    } else {
      InsertRowOrders(r, s[1..]);
      InsertRowKeeps(r, s[1..]);
      KeyOrder(s[0], r, r);
      forall t | t in multiset(InsertRow(r, s[1..]))
        ensures !KeyLess(t, s[0])
      {
        if t != r {
          assert t in multiset(s[1..]);
          var j :| 0 <= j < |s[1..]| && s[1..][j] == t;
          assert s[j + 1] == t;
        }
      }
    }
  }

  lemma {:induction false} InsertRowIsStable(r: Row, s: seq<Row>, key: Row)
    ensures OfKey(InsertRow(r, s), key) == (if SameKey(r, key) then [r] else []) + OfKey(s, key)
  {
    if s == [] || !KeyLess(s[0], r) {
      assert ([r] + s)[1..] == s;
    } else {
      InsertRowIsStable(r, s[1..], key);
      KeyOrder(s[0], r, r);
      assert !SameKey(s[0], key) || !SameKey(r, key);
      assert ([s[0]] + InsertRow(r, s[1..]))[1..] == InsertRow(r, s[1..]);
    }
  }

  /** The sheet holds the rows of the audit, worst severity first, rows of one key in the order of the audit. */
  lemma {:induction false} SortRowsIsSort(rows: seq<Row>, key: Row)
    ensures multiset(SortRows(rows)) == multiset(rows) && Ordered(SortRows(rows))
    ensures OfKey(SortRows(rows), key) == OfKey(rows, key)
  {
    if rows != [] {
      SortRowsIsSort(rows[1..], key);
      InsertRowKeeps(rows[0], SortRows(rows[1..]));
      InsertRowOrders(rows[0], SortRows(rows[1..]));
      InsertRowIsStable(rows[0], SortRows(rows[1..]), key);
      assert rows == [rows[0]] + rows[1..];
    }
  }

  /** What comes first: every high finding before any other, then the medium ones, then the low ones, then whatever else
      is written there; and within one severity the dossiers, then the types, in alphabetical order. */
  lemma WorstFirst(rows: seq<Row>, i: nat, j: nat)
    requires i < j < |SortRows(rows)|
    ensures var r, s := SortRows(rows)[i], SortRows(rows)[j];
            && (s.severity == "high" ==> r.severity == "high")
            && (s.severity == "medium" ==> r.severity in {"high", "medium"})
            && (s.severity == "low" ==> r.severity in {"high", "medium", "low"})
            && (s.severity == r.severity ==>
                  !TextLess(s.dossier, r.dossier) && (s.dossier == r.dossier ==> !TextLess(s.kind, r.kind)))
  {
    SortRowsIsSort(rows, SortRows(rows)[i]);
    assert !KeyLess(SortRows(rows)[j], SortRows(rows)[i]);
  }

  lemma SortedMembers(rows: seq<Row>)
    ensures |SortRows(rows)| == |rows| && forall r :: r in SortRows(rows) <==> r in rows
  {
    SortRowsIsSort(rows, Row("", "", "", "", "", "", "", Pending, ""));
    assert |multiset(SortRows(rows))| == |multiset(rows)|;
    forall r
      ensures r in SortRows(rows) <==> r in rows
    {
      assert r in SortRows(rows) <==> r in multiset(SortRows(rows));
    }
  }

  method BuildRows(digest: Digest, audit: Audit) returns (rows: seq<Row>)
    ensures rows == SortRows(Rows(digest, audit))
  {
    rows := [];
    for n := 0 to |audit|
      invariant rows == Rows(digest, audit[..n])
    {
      var a := audit[n];
      var before := rows;
      for i := 0 to |a.findings|
        invariant rows == before + RowsOf(digest, a)[..i]
      {
        rows := rows + [RowOf(digest, a.reference, a.findings[i])];
      }
      assert RowsOf(digest, a)[..|a.findings|] == RowsOf(digest, a);
      assert audit[..n + 1][..n] == audit[..n];
    }
    assert audit[..|audit|] == audit;
    rows := SortRows(rows);
  }

  // ---- Writing and reading the cells ---------------------------------------------------------------------------

  function Word(d: Decision): string {
    match d
    case Pending => "pending"
    case Keep => "keep"
    case Drop => "drop"
  }

  type Lower = string -> string

  /** The words the export writes are already in lower case. */
  ghost predicate FixesWords(lower: Lower) {
    forall d :: lower(Word(d)) == Word(d)
  }

  /** What the analyst may write; anything else is an error. */
  function ParseDecision(lower: Lower, raw: string): Option<Decision> {
    var v := lower(Strip(raw));
    if v in ["pending", ""] then Some(Pending)
    else if v in ["keep", "o", "oui", "y", "yes", "ok", "garder"] then Some(Keep)
    else if v in ["drop", "n", "non", "no", "ko", "rejeter", "ecarter"] then Some(Drop)
    else None
  }

  type Parser = string -> Option<Decision>

  function DecisionParser(lower: Lower): Parser {
    raw => ParseDecision(lower, raw)
  }

  /** The words of the export are read back as what they mean. */
  ghost predicate ReadsWords(parse: Parser) {
    forall d :: parse(Word(d)) == Some(d)
  }

  lemma DecisionWordsAreRead(lower: Lower)
    requires FixesWords(lower)
    ensures ReadsWords(DecisionParser(lower))
  {
    forall d
      ensures ParseDecision(lower, Word(d)) == Some(d)
    {
      StripPadded([], Word(d), []);
      assert [] + Word(d) + [] == Word(d);
    }
  }

  lemma NoBlanksIn(w: string)
    requires w != [] && !IsSpace(w[0]) && !IsSpace(w[|w| - 1])
    ensures Strip(w) == w
  {
    StripPadded([], w, []);
    assert [] + w + [] == w;
  }

  /** What an analyst may write, in lower case: a yes keeps, a no drops, a blank cell leaves the finding pending, and
      any other word is refused. */
  lemma WordsDecide(lower: Lower, w: string)
    requires lower(w) == w && (w == [] || (!IsSpace(w[0]) && !IsSpace(w[|w| - 1])))
    ensures DecisionParser(lower)(w) == if w == "" || w == "pending" then Some(Pending)
                                        else if w in {"keep", "o", "oui", "y", "yes", "ok", "garder"} then Some(Keep)
                                        else if w in {"drop", "n", "non", "no", "ko", "rejeter", "ecarter"}
                                        then Some(Drop)
                                        else None
  {
    if w != [] {
      NoBlanksIn(w);
    }
  }

  lemma YesAndNo(lower: Lower)
    requires lower("oui") == "oui" && lower("non") == "non" && lower("") == "" && lower("peut-etre") == "peut-etre"
    ensures DecisionParser(lower)("oui") == Some(Keep) && DecisionParser(lower)("non") == Some(Drop)
    ensures DecisionParser(lower)("") == Some(Pending) && DecisionParser(lower)("peut-etre") == None
  {
    WordsDecide(lower, "oui");
    WordsDecide(lower, "non");
    WordsDecide(lower, "");
    WordsDecide(lower, "peut-etre");
  }

  function Sheet(digest: Digest, audit: Audit): seq<Cells> {
    var rows := SortRows(Rows(digest, audit));
    seq(|rows|, i requires 0 <= i < |rows| => CellsOf(rows[i]))
  }

  function CellsOf(r: Row): Cells {
    Cells(r.id, Word(r.decision), r.note)
  }

  const COLUMNS: Record := ["finding_id", "dossier", "type", "severity", "decision", "note", "quote_a", "quote_b",
                            "explanation"]

  function RecordOf(r: Row): Record {
    [r.id, r.dossier, r.kind, r.severity, Word(r.decision), r.note, r.quoteA, r.quoteB, r.explanation]
  }

  function Records(digest: Digest, audit: Audit): seq<Record> {
    var rows := SortRows(Rows(digest, audit));
    seq(|rows|, i requires 0 <= i < |rows| => RecordOf(rows[i]))
  }

  /** The text of the exported sheet. */
  function FileOf(quotes: Quoting, digest: Digest, audit: Audit): string {
    Write(quotes, [COLUMNS] + Records(digest, audit))
  }

  method WriteRows(quotes: Quoting, header: Record, rows: seq<Row>) returns (text: string)
    ensures text == Write(quotes, [header] + seq(|rows|, i requires 0 <= i < |rows| => RecordOf(rows[i])))
  {
    ghost var all := [header] + seq(|rows|, i requires 0 <= i < |rows| => RecordOf(rows[i]));
    text := WriteRecord(quotes, header);
    WriteSnoc(quotes, [], header);
    assert all[..1] == [] + [header];
    for i := 0 to |rows|
      invariant text == Write(quotes, all[..i + 1])
    {
      var record := RecordOf(rows[i]);
      WriteSnoc(quotes, all[..i + 1], record);
      assert all[..i + 2] == all[..i + 1] + [record];
      text := text + WriteRecord(quotes, record);
    }
    assert all[..|rows| + 1] == all;
  }

  method ToCsv(quotes: Quoting, digest: Digest, audit: Audit) returns (text: string)
    ensures text == FileOf(quotes, digest, audit)
  {
    var rows := BuildRows(digest, audit);
    text := WriteRows(quotes, COLUMNS, rows);
  }

  /** The cell under a name: the last column of that name counts, and a record may be short. */
  function Value(header: Record, r: Record, name: string): string {
    if header == [] then ""
    else
      var n := |header| - 1;
      if header[n] != name then Value(header[..n], r, name) else if n < |r| then r[n] else ""
  }

  function CellsRead(header: Record, r: Record): Cells {
    Cells(Value(header, r, "finding_id"), Value(header, r, "decision"), Value(header, r, "note"))
  }

  /** Empty lines are skipped. */
  function AllCells(header: Record, records: seq<Record>): seq<Cells> {
    if records == [] then []
    else (if records[0] == [] then [] else [CellsRead(header, records[0])]) + AllCells(header, records[1..])
  }

  /** The rows of a file, unless it has no column of identifiers. */
  function SheetRead(text: string): Option<seq<Cells>> {
    var records := Read(Universal(text));
    if records == [] || "finding_id" !in records[0] then None else Some(AllCells(records[0], records[1..]))
  }

  predicate Readable(parse: Parser, sheet: seq<Cells>) {
    forall i | 0 <= i < |sheet| && Strip(sheet[i].id) != "" :: parse(sheet[i].decision).Some?
  }

  /** The decisions of a sheet: rows without an identifier are skipped and the last row of an identifier wins. */
  function Decisions(parse: Parser, sheet: seq<Cells>): map<string, (Decision, string)>
    requires Readable(parse, sheet)
  {
    if sheet == [] then map[]
    else
      var d, c := Decisions(parse, sheet[..|sheet| - 1]), sheet[|sheet| - 1];
      if Strip(c.id) == "" then d else d[Strip(c.id) := Said(parse, c)]
  }

  /** What a row says: its decision and its trimmed note. */
  function Said(parse: Parser, c: Cells): (Decision, string)
    requires parse(c.decision).Some?
  {
    (parse(c.decision).value, Strip(c.note))
  }

  method ReadRows(parse: Parser, sheet: seq<Cells>) returns (r: Option<map<string, (Decision, string)>>)
    ensures r.Some? <==> Readable(parse, sheet)
    ensures r.Some? ==> r.value == Decisions(parse, sheet)
  {
    var decisions := map[];
    for n := 0 to |sheet|
      invariant Readable(parse, sheet[..n]) && decisions == Decisions(parse, sheet[..n])
    {
      assert sheet[..n + 1][..n] == sheet[..n];
      var key := Strip(sheet[n].id);
      if key == "" {
        continue;
      }
      var d := parse(sheet[n].decision);
      if d.None? {
        return None;
      }
      decisions := decisions[key := (d.value, Strip(sheet[n].note))];
    }
    assert sheet[..|sheet|] == sheet;
    return Some(decisions);
  }

  datatype Reading =
    | NoFile
    | NotASheet
    | BadDecision
    | Accepted(decisions: map<string, (Decision, string)>)

  /** Absent, not a sheet, or a sheet whose every named row has a decision that can be read. */
  method ReadReview(parse: Parser, file: Option<string>) returns (r: Reading)
    ensures r.NoFile? <==> file.None?
    ensures r.NotASheet? <==> file.Some? && SheetRead(file.value).None?
    ensures r.Accepted? <==> file.Some? && SheetRead(file.value).Some? && Readable(parse, SheetRead(file.value).value)
    ensures r.Accepted? ==> r.decisions == Decisions(parse, SheetRead(file.value).value)
  {
    if file.None? {
      return NoFile;
    }
    var read := SheetRead(file.value);
    if read.None? {
      return NotASheet;
    }
    var decisions := ReadRows(parse, read.value);
    return if decisions.Some? then Accepted(decisions.value) else BadDecision;
  }

  predicate Names(c: Cells, id: string) {
    Strip(c.id) == id
  }

  predicate LastFor(sheet: seq<Cells>, id: string, i: int) {
    0 <= i < |sheet| && Names(sheet[i], id) && forall j | i < j < |sheet| :: !Names(sheet[j], id)
  }

  lemma {:induction false} DecidedIffNamed(parse: Parser, sheet: seq<Cells>, id: string)
    requires Readable(parse, sheet)
    ensures id in Decisions(parse, sheet) <==> id != "" && exists i :: 0 <= i < |sheet| && Names(sheet[i], id)
  {
    if sheet != [] {
      var r, c := sheet[..|sheet| - 1], sheet[|sheet| - 1];
      DecidedIffNamed(parse, r, id);
      if Names(c, id) {
        assert Names(sheet[|sheet| - 1], id);
      }
      assert forall i | 0 <= i < |r| :: r[i] == sheet[i];
    }
  }

  lemma {:induction false} LastRow(parse: Parser, sheet: seq<Cells>, id: string) returns (i: nat)
    requires Readable(parse, sheet) && id in Decisions(parse, sheet)
    ensures LastFor(sheet, id, i) && parse(sheet[i].decision).Some?
    ensures Decisions(parse, sheet)[id] == Said(parse, sheet[i])
  {
    var r, c := sheet[..|sheet| - 1], sheet[|sheet| - 1];
    assert sheet == r + [c];
    DecidedIffNamed(parse, sheet, id);
    if Names(c, id) {
      i := |r|;
    } else {
      i := LastRow(parse, r, id);
    }
  }

  /** A decision is read if and only if some row names the finding, and it is what the last such row says. */
  lemma DecisionsAreLastRows(parse: Parser, sheet: seq<Cells>, id: string)
    requires Readable(parse, sheet)
    ensures id in Decisions(parse, sheet) <==> id != "" && exists i :: 0 <= i < |sheet| && Names(sheet[i], id)
    ensures id in Decisions(parse, sheet) ==>
              exists i :: LastFor(sheet, id, i) && parse(sheet[i].decision).Some?
                          && Decisions(parse, sheet)[id] == Said(parse, sheet[i])
  {
    DecidedIffNamed(parse, sheet, id);
    if id in Decisions(parse, sheet) {
      var i := LastRow(parse, sheet, id);
    }
  }

  /** No two rows name one finding; rows without an identifier are free. */
  ghost predicate DistinctIds(sheet: seq<Cells>) {
    forall i, j | 0 <= i < j < |sheet| && Strip(sheet[i].id) != "" :: Strip(sheet[i].id) != Strip(sheet[j].id)
  }

  lemma DecisionOfRow(parse: Parser, sheet: seq<Cells>, i: nat)
    requires Readable(parse, sheet) && DistinctIds(sheet) && i < |sheet| && Strip(sheet[i].id) != ""
    ensures Strip(sheet[i].id) in Decisions(parse, sheet)
            && Decisions(parse, sheet)[Strip(sheet[i].id)] == Said(parse, sheet[i])
  {
    var id := Strip(sheet[i].id);
    assert Names(sheet[i], id);
    DecisionsAreLastRows(parse, sheet, id);
    var k :| LastFor(sheet, id, k) && parse(sheet[k].decision).Some?
             && Decisions(parse, sheet)[id] == Said(parse, sheet[k]);
  }

  lemma RowStays(rows: seq<Cells>, other: seq<Cells>, i: nat) returns (j: nat)
    requires multiset(other) <= multiset(rows) && i < |other|
    ensures j < |rows| && rows[j] == other[i]
  {
    assert other[i] in multiset(other);
    assert other[i] in multiset(rows);
    j :| 0 <= j < |rows| && rows[j] == other[i];
  }

  lemma OccursOnce(rows: seq<Cells>, k: nat)
    requires k < |rows| && forall i | 0 <= i < |rows| && i != k :: rows[i] != rows[k]
    ensures multiset(rows)[rows[k]] == 1
  {
    assert rows == rows[..k] + [rows[k]] + rows[k + 1..];
    assert rows[k] !in rows[..k] && rows[k] !in rows[k + 1..];
  }

  lemma OccursTwice(rows: seq<Cells>, i: nat, j: nat)
    requires i < j < |rows| && rows[i] == rows[j]
    ensures multiset(rows)[rows[i]] >= 2
  {
    assert rows == rows[..j] + rows[j..];
    assert rows[..j][i] == rows[i] && rows[j..][0] == rows[j];
    assert rows[i] in multiset(rows[..j]) && rows[i] in multiset(rows[j..]);
  }

  /** Deleting and moving rows keeps identifiers distinct. */
  lemma DistinctIdsStay(rows: seq<Cells>, other: seq<Cells>)
    requires DistinctIds(rows) && multiset(other) <= multiset(rows)
    ensures DistinctIds(other)
  {
    forall i, j | 0 <= i < j < |other| && Strip(other[i].id) != ""
      ensures Strip(other[i].id) != Strip(other[j].id)
    {
      var k := RowStays(rows, other, i);
      var l := RowStays(rows, other, j);
      if Strip(other[i].id) == Strip(other[j].id) {
        assert k == l;
        OccursTwice(other, i, j);
        OccursOnce(rows, k);
        assert false;
      }
    }
  }

  /** The analyst may sort the sheet and delete rows: the rows left decide as before, and a finding whose row is gone is
      decided by nobody. */
  lemma SheetMayBeFiltered(parse: Parser, rows: seq<Cells>, other: seq<Cells>)
    requires Readable(parse, rows) && DistinctIds(rows) && multiset(other) <= multiset(rows)
    ensures Readable(parse, other)
    ensures forall id | id in Decisions(parse, other) ::
              id in Decisions(parse, rows) && Decisions(parse, other)[id] == Decisions(parse, rows)[id]
    ensures forall id ::
              id in Decisions(parse, other) <==> id != "" && exists i :: 0 <= i < |other| && Names(other[i], id)
  {
    DistinctIdsStay(rows, other);
    forall i | 0 <= i < |other| && Strip(other[i].id) != ""
      ensures parse(other[i].decision).Some?
    {
      var j := RowStays(rows, other, i);
    }
    forall id
      ensures id in Decisions(parse, other) <==> id != "" && exists i :: 0 <= i < |other| && Names(other[i], id)
      ensures id in Decisions(parse, other) ==>
                id in Decisions(parse, rows) && Decisions(parse, other)[id] == Decisions(parse, rows)[id]
    {
      DecisionsAreLastRows(parse, other, id);
      if id in Decisions(parse, other) {
        var i :| 0 <= i < |other| && Names(other[i], id);
        DecisionOfRow(parse, other, i);
        var j := RowStays(rows, other, i);
        DecisionOfRow(parse, rows, j);
      }
    }
  }

  /** Sorting alone changes no decision. */
  lemma SheetOrderIsFree(parse: Parser, rows: seq<Cells>, other: seq<Cells>)
    requires multiset(rows) == multiset(other) && DistinctIds(rows) && Readable(parse, rows)
    ensures Readable(parse, other) && Decisions(parse, rows) == Decisions(parse, other)
  {
    DistinctIdsStay(rows, other);
    SheetMayBeFiltered(parse, rows, other);
    SheetMayBeFiltered(parse, other, rows);
  }

  // ---- Decisions applied to the audit ------------------------------------------------------------------------------

  function Decided(digest: Digest, decisions: map<string, (Decision, string)>, dossier: string, f: Item): Item {
    var id := FindingId(digest, dossier, f);
    var d := if id in decisions then decisions[id] else (Pending, "");
    f.(decision := d.0, note := d.1)
  }

  function DecidedAll(digest: Digest, decisions: map<string, (Decision, string)>, a: Analysis): Analysis {
    Analysis(a.reference,
             seq(|a.findings|, i requires 0 <= i < |a.findings| =>
               Decided(digest, decisions, a.reference, a.findings[i])))
  }

  function Applied(digest: Digest, decisions: map<string, (Decision, string)>, audit: Audit): Audit {
    seq(|audit|, n requires 0 <= n < |audit| => DecidedAll(digest, decisions, audit[n]))
  }

  method ApplyDecisions(digest: Digest, decisions: map<string, (Decision, string)>, audit: Audit)
    returns (updated: Audit)
    ensures updated == Applied(digest, decisions, audit)
  {
    updated := [];
    for n := 0 to |audit|
      invariant updated == Applied(digest, decisions, audit)[..n]
    {
      var a := audit[n];
      var findings := [];
      for i := 0 to |a.findings|
        invariant findings == DecidedAll(digest, decisions, a).findings[..i]
      {
        var id := FindingId(digest, a.reference, a.findings[i]);
        var d := if id in decisions then decisions[id] else (Pending, "");
        findings := findings + [a.findings[i].(decision := d.0, note := d.1)];
      }
      assert findings == DecidedAll(digest, decisions, a).findings;
      updated := updated + [Analysis(a.reference, findings)];
    }
  }

  // ---- Publication ----------------------------------------------------------------------------------------------

  function PendingRows(rows: seq<Row>): nat {
    if rows == [] then 0 else PendingRows(rows[..|rows| - 1]) + if rows[|rows| - 1].decision == Pending then 1 else 0
  }

  lemma {:induction false} NonePending(rows: seq<Row>)
    ensures PendingRows(rows) == 0 <==> forall i | 0 <= i < |rows| :: rows[i].decision != Pending
  {
    if rows != [] {
      NonePending(rows[..|rows| - 1]);
    }
  }

  /** Every finding has been decided. */
  ghost predicate Settled(audit: Audit) {
    forall n, i | 0 <= n < |audit| && 0 <= i < |audit[n].findings| :: audit[n].findings[i].decision != Pending
  }

  lemma {:induction false} RowAt(digest: Digest, audit: Audit, n: nat, i: nat) returns (k: nat)
    requires n < |audit| && i < |audit[n].findings|
    ensures k < |Rows(digest, audit)|
            && Rows(digest, audit)[k] == RowOf(digest, audit[n].reference, audit[n].findings[i])
  {
    var r := audit[..|audit| - 1];
    if n == |audit| - 1 {
      k := |Rows(digest, r)| + i;
    } else {
      k := RowAt(digest, r, n, i);
    }
  }

  lemma {:induction false} ItemOfRow(digest: Digest, audit: Audit, k: nat) returns (n: nat, i: nat)
    requires k < |Rows(digest, audit)|
    ensures n < |audit| && i < |audit[n].findings|
    ensures Rows(digest, audit)[k] == RowOf(digest, audit[n].reference, audit[n].findings[i])
  {
    var r := audit[..|audit| - 1];
    if k >= |Rows(digest, r)| {
      n, i := |audit| - 1, k - |Rows(digest, r)|;
    } else {
      n, i := ItemOfRow(digest, r, k);
    }
  }

  /** Counting the pending rows of the sorted sheet decides whether every finding is settled. */
  lemma SettledIff(digest: Digest, audit: Audit)
    ensures Settled(audit) <==> PendingRows(SortRows(Rows(digest, audit))) == 0
  {
    var rows := Rows(digest, audit);
    var sorted := SortRows(rows);
    SortedMembers(rows);
    NonePending(sorted);
    forall n, i | 0 <= n < |audit| && 0 <= i < |audit[n].findings|
      ensures exists k :: 0 <= k < |sorted| && sorted[k].decision == audit[n].findings[i].decision
    {
      var k := RowAt(digest, audit, n, i);
      assert rows[k] in sorted;
    }
    forall k | 0 <= k < |sorted|
      ensures exists n, i ::
                0 <= n < |audit| && 0 <= i < |audit[n].findings| && sorted[k].decision == audit[n].findings[i].decision
    {
      assert sorted[k] in rows;
      var m :| 0 <= m < |rows| && rows[m] == sorted[k];
      var n, i := ItemOfRow(digest, audit, m);
    }
  }

  function KeptOf(findings: seq<Item>): seq<Item> {
    if findings == [] then []
    else
      var f := findings[|findings| - 1];
      KeptOf(findings[..|findings| - 1]) + if f.decision == Keep then [f] else []
  }

  function Kept(audit: Audit): Audit {
    seq(|audit|, n requires 0 <= n < |audit| => Analysis(audit[n].reference, KeptOf(audit[n].findings)))
  }

  /** What may be published: nothing while a finding is pending. */
  method KeptFindings(digest: Digest, audit: Audit) returns (r: Option<Audit>)
    ensures r.Some? <==> Settled(audit)
    ensures r.Some? ==> r.value == Kept(audit)
  {
    var rows := BuildRows(digest, audit);
    SettledIff(digest, audit);
    if PendingRows(rows) > 0 {
      return None;
    }
    var analyses := [];
    for n := 0 to |audit|
      invariant analyses == Kept(audit)[..n]
    {
      var kept := [];
      var findings := audit[n].findings;
      for i := 0 to |findings|
        invariant kept == KeptOf(findings[..i])
      {
        assert findings[..i + 1][..i] == findings[..i];
        if findings[i].decision == Keep {
          kept := kept + [findings[i]];
        }
      }
      assert findings[..|findings|] == findings;
      analyses := analyses + [Analysis(audit[n].reference, kept)];
    }
    return Some(analyses);
  }

  /** The findings kept stay in order. */
  lemma {:induction false} KeptOfConcat(a: seq<Item>, b: seq<Item>)
    ensures KeptOf(a + b) == KeptOf(a) + KeptOf(b)
  {
    if b == [] {
      assert a + b == a;
    } else {
      var n := |b| - 1;
      KeptOfConcat(a, b[..n]);
      assert (a + b)[..|a| + n] == a + b[..n] && (a + b)[|a| + n] == b[n];
      Regroup(KeptOf(a), KeptOf(b[..n]), if b[n].decision == Keep then [b[n]] else []);
    }
  }

  lemma KeptOfOne(f: Item)
    ensures KeptOf([f]) == (if f.decision == Keep then [f] else []) && KeptOf([]) == []
  {
    assert [f][..0] == [];
  }

  lemma {:induction false} KeptOfIs(findings: seq<Item>)
    ensures forall f :: f in KeptOf(findings) <==> f in findings && f.decision == Keep
  {
    if findings != [] {
      var r := findings[..|findings| - 1];
      KeptOfIs(r);
      assert findings == r + [findings[|findings| - 1]];
    }
  }

  /** The last row of the sheet that names the finding decides `d`. */
  ghost predicate DecidedBy(parse: Parser, sheet: seq<Cells>, id: string, d: Decision) {
    exists i :: LastFor(sheet, id, i) && parse(sheet[i].decision) == Some(d)
  }

  /** The report can be produced exactly when the sheet settles every finding, and it then holds exactly the findings
      whose last row says to keep them. */
  lemma PublishedIffKept(digest: Digest, parse: Parser, audit: Audit, sheet: seq<Cells>)
    requires Tidy(digest) && Readable(parse, sheet)
    ensures var a := Applied(digest, Decisions(parse, sheet), audit);
            && (Settled(a) <==> forall n, i | 0 <= n < |audit| && 0 <= i < |audit[n].findings| ::
                  var id := FindingId(digest, audit[n].reference, audit[n].findings[i]);
                  DecidedBy(parse, sheet, id, Keep) || DecidedBy(parse, sheet, id, Drop))
            && forall n, i | 0 <= n < |audit| && 0 <= i < |audit[n].findings| ::
                 a[n].findings[i] in Kept(a)[n].findings
                 <==> DecidedBy(parse, sheet, FindingId(digest, audit[n].reference, audit[n].findings[i]), Keep)
  {
    var a := Applied(digest, Decisions(parse, sheet), audit);
    forall n, i | 0 <= n < |audit| && 0 <= i < |audit[n].findings|
      ensures var id := FindingId(digest, audit[n].reference, audit[n].findings[i]);
              && (a[n].findings[i].decision == Keep <==> DecidedBy(parse, sheet, id, Keep))
              && (a[n].findings[i].decision == Drop <==> DecidedBy(parse, sheet, id, Drop))
      ensures a[n].findings[i] in Kept(a)[n].findings <==> a[n].findings[i].decision == Keep
    {
      DecisionMeans(parse, sheet, FindingId(digest, audit[n].reference, audit[n].findings[i]));
      KeptOfIs(a[n].findings);
    }
  }

  lemma DecisionMeans(parse: Parser, sheet: seq<Cells>, id: string)
    requires id != "" && Readable(parse, sheet)
    ensures var d := Decisions(parse, sheet);
            forall x | x != Pending :: id in d && d[id].0 == x <==> DecidedBy(parse, sheet, id, x)
  {
    DecisionsAreLastRows(parse, sheet, id);
    if id in Decisions(parse, sheet) {
      var i :| LastFor(sheet, id, i) && parse(sheet[i].decision).Some?
               && Decisions(parse, sheet)[id] == Said(parse, sheet[i]);
      assert forall j | LastFor(sheet, id, j) :: j == i;
    }
  }

  // ---- Export and import ----------------------------------------------------------------------------------------

  /** Findings that share an identifier carry the same decision. */
  ghost predicate Consistent(digest: Digest, audit: Audit) {
    var rows := Rows(digest, audit);
    forall i, j | 0 <= i < |rows| && 0 <= j < |rows| && rows[i].id == rows[j].id ::
      rows[i].decision == rows[j].decision && rows[i].note == rows[j].note
  }

  /** Notes begin and end with something else than a space. */
  ghost predicate Trimmed(audit: Audit) {
    forall n, i | 0 <= n < |audit| && 0 <= i < |audit[n].findings| ::
      Strip(audit[n].findings[i].note) == audit[n].findings[i].note
  }

  /** The row of a finding in the exported sheet. */
  lemma CellsAt(digest: Digest, audit: Audit, n: nat, i: nat) returns (k: nat)
    requires n < |audit| && i < |audit[n].findings|
    ensures k < |Sheet(digest, audit)|
            && Sheet(digest, audit)[k] == CellsOf(RowOf(digest, audit[n].reference, audit[n].findings[i]))
  {
    var rows := Rows(digest, audit);
    var m := RowAt(digest, audit, n, i);
    SortedMembers(rows);
    assert rows[m] in SortRows(rows);
    k :| 0 <= k < |SortRows(rows)| && SortRows(rows)[k] == rows[m];
  }

  lemma RowOfCells(digest: Digest, audit: Audit, k: nat) returns (m: nat)
    requires k < |Sheet(digest, audit)|
    ensures m < |Rows(digest, audit)| && Sheet(digest, audit)[k] == CellsOf(Rows(digest, audit)[m])
  {
    var rows := Rows(digest, audit);
    SortedMembers(rows);
    assert SortRows(rows)[k] in rows;
    m :| 0 <= m < |rows| && rows[m] == SortRows(rows)[k];
  }

  lemma ExportDecides(digest: Digest, parse: Parser, audit: Audit, n: nat, i: nat)
    requires Tidy(digest) && ReadsWords(parse) && Readable(parse, Sheet(digest, audit)) && Consistent(digest, audit)
    requires n < |audit| && i < |audit[n].findings|
    ensures var f, id := audit[n].findings[i], FindingId(digest, audit[n].reference, audit[n].findings[i]);
            id in Decisions(parse, Sheet(digest, audit))
            && Decisions(parse, Sheet(digest, audit))[id] == (f.decision, Strip(f.note))
  {
    var sheet, rows := Sheet(digest, audit), Rows(digest, audit);
    var f, id := audit[n].findings[i], FindingId(digest, audit[n].reference, audit[n].findings[i]);
    var k := CellsAt(digest, audit, n, i);
    assert Names(sheet[k], id);
    DecisionsAreLastRows(parse, sheet, id);
    var l :| LastFor(sheet, id, l) && parse(sheet[l].decision).Some?
             && Decisions(parse, sheet)[id] == Said(parse, sheet[l]);
    var m := RowOfCells(digest, audit, l);
    var x, y := ItemOfRow(digest, audit, m);
    var o := RowAt(digest, audit, n, i);
    assert rows[m].id == rows[o].id;
  }

  /** Exporting a reviewed audit and importing the sheet unchanged gives the audit back exactly when findings that
      share an identifier were decided alike and no note begins or ends with a space. */
  lemma RoundTripIff(digest: Digest, parse: Parser, audit: Audit)
    requires Tidy(digest) && ReadsWords(parse)
    ensures Readable(parse, Sheet(digest, audit))
    ensures Applied(digest, Decisions(parse, Sheet(digest, audit)), audit) == audit
            <==> Consistent(digest, audit) && Trimmed(audit)
  {
    var a := Applied(digest, Decisions(parse, Sheet(digest, audit)), audit);
    if Consistent(digest, audit) && Trimmed(audit) {
      forall n, i | 0 <= n < |audit| && 0 <= i < |audit[n].findings|
        ensures a[n].findings[i] == audit[n].findings[i]
      {
        ExportDecides(digest, parse, audit, n, i);
      }
      SameItems(audit, a);
    }
    if a == audit {
      ImportIsConsistent(digest, parse, audit, Sheet(digest, audit));
    }
  }

  lemma SameItems(x: Audit, y: Audit)
    requires |x| == |y|
    requires forall n | 0 <= n < |x| :: x[n].reference == y[n].reference && |x[n].findings| == |y[n].findings|
    requires forall n, i | 0 <= n < |x| && 0 <= i < |x[n].findings| :: y[n].findings[i] == x[n].findings[i]
    ensures x == y
  {
    forall n | 0 <= n < |x|
      ensures x[n] == y[n]
    {
      assert x[n].findings == y[n].findings;
    }
  }

  lemma SharedIdsAgree(digest: Digest, audit: Audit, decisions: map<string, (Decision, string)>)
    ensures Consistent(digest, Applied(digest, decisions, audit))
  {
    var a := Applied(digest, decisions, audit);
    var rows := Rows(digest, a);
    forall i, j | 0 <= i < |rows| && 0 <= j < |rows| && rows[i].id == rows[j].id
      ensures rows[i].decision == rows[j].decision && rows[i].note == rows[j].note
    {
      var n, x := ItemOfRow(digest, a, i);
      var m, y := ItemOfRow(digest, a, j);
      assert a[n].findings[x] == Decided(digest, decisions, audit[n].reference, audit[n].findings[x]);
      assert a[m].findings[y] == Decided(digest, decisions, audit[m].reference, audit[m].findings[y]);
    }
  }

  /** Whatever the sheet, one import makes the audit consistent and trimmed: it survives any later export and import. */
  lemma ImportIsConsistent(digest: Digest, parse: Parser, audit: Audit, sheet: seq<Cells>)
    requires Readable(parse, sheet)
    ensures var a := Applied(digest, Decisions(parse, sheet), audit); Consistent(digest, a) && Trimmed(a)
  {
    var d := Decisions(parse, sheet);
    var a := Applied(digest, d, audit);
    SharedIdsAgree(digest, audit, d);
    forall n, i | 0 <= n < |a| && 0 <= i < |a[n].findings|
      ensures Strip(a[n].findings[i].note) == a[n].findings[i].note
    {
      var id := FindingId(digest, audit[n].reference, audit[n].findings[i]);
      DecisionsAreLastRows(parse, sheet, id);
      if id in d {
        var k :| LastFor(sheet, id, k) && parse(sheet[k].decision).Some? && d[id] == Said(parse, sheet[k]);
        StripTwice(sheet[k].note);
      }
    }
  }

  // ---- Identifiers ----------------------------------------------------------------------------------------------

  /** Without the separator in the reference, the type and the first quote, what is digested names one finding. */
  lemma MaterialIsFaithful(d: string, f: Item, e: string, g: Item)
    requires '|' !in d && '|' !in e && '|' !in f.kind && '|' !in g.kind && '|' !in f.quoteA && '|' !in g.quoteA
    requires Material(d, f) == Material(e, g)
    ensures SameNamed(d, f, e, g)
  {
    SplitOnce(d, f.kind + "|" + (f.quoteA + "|" + f.quoteB), e, g.kind + "|" + (g.quoteA + "|" + g.quoteB));
    SplitOnce(f.kind, f.quoteA + "|" + f.quoteB, g.kind, g.quoteA + "|" + g.quoteB);
    SplitOnce(f.quoteA, f.quoteB, g.quoteA, g.quoteB);
  }

  /** The fields that tell findings apart. */
  predicate SameNamed(d: string, f: Item, e: string, g: Item) {
    d == e && f.kind == g.kind && f.quoteA == g.quoteA && f.quoteB == g.quoteB
  }

  predicate HasSeparator(d: string, f: Item) {
    '|' in d || '|' in f.kind || '|' in f.quoteA || '|' in f.quoteB
  }

  lemma BarsOfMaterial(d: string, f: Item)
    ensures Bars(Material(d, f)) == 3 + Bars(d) + Bars(f.kind) + Bars(f.quoteA) + Bars(f.quoteB)
    ensures HasSeparator(d, f) <==> Bars(Material(d, f)) > 3
  {
    var tail := f.quoteA + "|" + f.quoteB;
    BarsOfJoin(f.quoteA, f.quoteB);
    BarsOfJoin(f.kind, tail);
    BarsOfJoin(d, f.kind + "|" + tail);
  }

  /** A finding whose text holds the separator shares its identifier with another one. */
  lemma Confused(d: string, f: Item) returns (e: string, g: Item)
    requires HasSeparator(d, f)
    ensures Material(e, g) == Material(d, f) && !SameNamed(d, f, e, g)
  {
    e, g := d, f;
    if '|' in d {
      var x, y := SplitAtBar(d);
      e, g := x, f.(kind := y, quoteA := f.kind, quoteB := f.quoteA + "|" + f.quoteB);
      assert Material(e, g) == Material(d, f);
    } else if '|' in f.kind {
      var x, y := SplitAtBar(f.kind);
      g := f.(kind := x, quoteA := y, quoteB := f.quoteA + "|" + f.quoteB);
      assert Material(e, g) == Material(d, f);
    } else if '|' in f.quoteA {
      var x, y := SplitAtBar(f.quoteA);
      g := f.(quoteA := x, quoteB := y + "|" + f.quoteB);
      assert Material(e, g) == Material(d, f);
    } else {
      var x, y := SplitAtBar(f.quoteB);
      g := f.(quoteA := f.quoteA + "|" + x, quoteB := y);
      assert Material(e, g) == Material(d, f);
    }
  }

  /** What is digested for a finding can be that of no other one, if and only if the separator is in none of its
      dossier, type and quotes: a check on that finding alone. */
  lemma MaterialNamesOneIff(d: string, f: Item)
    ensures (forall e, g | Material(e, g) == Material(d, f) :: SameNamed(d, f, e, g)) <==> !HasSeparator(d, f)
  {
    if HasSeparator(d, f) {
      var e, g := Confused(d, f);
    } else {
      forall e, g | Material(e, g) == Material(d, f)
        ensures SameNamed(d, f, e, g)
      {
        BarsOfMaterial(d, f);
        BarsOfMaterial(e, g);
        MaterialIsFaithful(d, f, e, g);
      }
    }
  }

  /** With it, two findings share their identifier under any digest: one row of the sheet decides both. */
  lemma SeparatorCollides(digest: Digest, d: string, f: Item) returns (e: string, g: Item)
    requires HasSeparator(d, f)
    ensures FindingId(digest, e, g) == FindingId(digest, d, f) && !SameNamed(d, f, e, g)
  {
    e, g := Confused(d, f);
  }
}
