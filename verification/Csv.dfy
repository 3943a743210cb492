/** The text of a sheet, as the csv library writes it (delimiter `;`, line end `\n`) and as it is read back, through
    `str.splitlines` and the library's reader. */
module Csv {
  import opened Text

  type Record = seq<string>

  // ---- Writing ------------------------------------------------------------------------------------------------------

  /** Which cells the writer quotes: those it must, and others as it likes. */
  type Quoting = string -> bool

  ghost predicate Careful(quotes: Quoting) {
    forall f: string | ';' in f || '"' in f || '\n' in f :: quotes(f)
  }

  function Doubled(f: string): string {
    if f == [] then [] else (if f[0] == '"' then "\"\"" else [f[0]]) + Doubled(f[1..])
  }

  function WriteCell(quotes: Quoting, f: string): string {
    if quotes(f) then "\"" + Doubled(f) + "\"" else f
  }

  function WriteCells(quotes: Quoting, r: Record): string {
    if r == [] then []
    else if |r| == 1 then WriteCell(quotes, r[0])
    else WriteCell(quotes, r[0]) + (";" + WriteCells(quotes, r[1..]))
  }

  /** A record of one empty cell is quoted, so that its line is not empty. */
  function WriteRecord(quotes: Quoting, r: Record): string {
    (if r == [""] then "\"\"" else WriteCells(quotes, r)) + "\n"
  }

  function Write(quotes: Quoting, records: seq<Record>): string {
    if records == [] then [] else WriteRecord(quotes, records[0]) + Write(quotes, records[1..])
  }

  lemma {:induction false} WriteSnoc(quotes: Quoting, records: seq<Record>, r: Record)
    ensures Write(quotes, records + [r]) == Write(quotes, records) + WriteRecord(quotes, r)
  {
    if records == [] {
      assert records + [r] == [r] && [r][1..] == [];
      assert Write(quotes, [r]) == WriteRecord(quotes, r) + Write(quotes, []);
    } else {
      WriteSnoc(quotes, records[1..], r);
      assert (records + [r])[0] == records[0] && (records + [r])[1..] == records[1..] + [r];
      Regroup(WriteRecord(quotes, records[0]), Write(quotes, records[1..]), WriteRecord(quotes, r));
    }
  }

  // ---- Lines --------------------------------------------------------------------------------------------------------

  predicate IsBreak(c: char) {
    var n := c as int;
    10 <= n <= 13 || 28 <= n <= 30 || n == 0x85 || n == 0x2028 || n == 0x2029
  }

  /** The ends of line of `str.splitlines`. */
  lemma BreaksAre(c: char)
    ensures IsBreak(c) <==> c in {'\n', '\r', '\U{0B}', '\U{0C}', '\U{1C}', '\U{1D}', '\U{1E}', '\U{85}', '\U{2028}',
                                  '\U{2029}'}
  {
  }

  predicate HasBreak(s: string) {
    exists i :: 0 <= i < |s| && IsBreak(s[i])
  }

  function LineEnd(s: string): (n: nat)
    ensures n <= |s| && (n < |s| ==> IsBreak(s[n])) && forall i | 0 <= i < n :: !IsBreak(s[i])
  {
    if s == [] || IsBreak(s[0]) then 0 else 1 + LineEnd(s[1..])
  }

  /** The length of the line break at `n`. */
  function BreakLength(s: string, n: nat): (k: nat)
    requires n < |s|
    ensures 1 <= k && n + k <= |s|
  {
    if n + 1 < |s| && s[n] == '\r' && s[n + 1] == '\n' then 2 else 1
  }

  function SplitLines(s: string): seq<string>
    decreases |s|
  {
    if s == [] then []
    else
      var n := LineEnd(s);
      if n == |s| then [s] else [s[..n]] + SplitLines(s[n + BreakLength(s, n)..])
  }

  // ---- Reading ------------------------------------------------------------------------------------------------------

  datatype Mode = StartRecord | StartCell | InCell | InQuotes | QuoteInQuotes

  /** The record under way. */
  datatype Parse = Parse(mode: Mode, cells: Record, cell: string)

  const START := Parse(StartRecord, [], "")

  function Save(p: Parse, mode: Mode): Parse {
    Parse(mode, p.cells + [p.cell], "")
  }

  function Feed(p: Parse, c: char): Parse {
    match p.mode
    case InQuotes => if c == '"' then p.(mode := QuoteInQuotes) else p.(cell := p.cell + [c])
    case QuoteInQuotes =>
      if c == '"' then p.(mode := InQuotes, cell := p.cell + [c])
      else if c == ';' then Save(p, StartCell)
      else p.(mode := InCell, cell := p.cell + [c])
    case InCell => if c == ';' then Save(p, StartCell) else p.(cell := p.cell + [c])
    case _ =>
      if c == '"' then p.(mode := InQuotes)
      else if c == ';' then Save(p, StartCell)
      else p.(mode := InCell, cell := p.cell + [c])
  }

  function FeedAll(p: Parse, s: string): Parse
    decreases |s|
  {
    if s == [] then p else FeedAll(Feed(p, s[0]), s[1..])
  }

  /** At the end of a line the record is complete, unless a quote is open. */
  function EndLine(p: Parse): Parse {
    if p.mode == InQuotes || p.mode == StartRecord then p else Save(p, StartRecord)
  }

  /** An open quote at the end of the text is closed there. */
  function ReadLines(p: Parse, lines: seq<string>): seq<Record>
    decreases |lines|
  {
    if lines == [] then (if p.mode == InQuotes then [p.cells + [p.cell]] else [])
    else
      var q := EndLine(FeedAll(p, lines[0]));
      if q.mode == StartRecord then [q.cells] + ReadLines(START, lines[1..]) else ReadLines(q, lines[1..])
  }

  function Read(text: string): seq<Record> {
    ReadLines(START, SplitLines(text))
  }

  // ---- Reading one record back ----------------------------------------------------------------------------------

  /** The parse of a text whose breaks are all within quotes, where they leave no trace. */
  function Skim(p: Parse, s: string): Parse
    decreases |s|
  {
    if s == [] then p else Skim(if IsBreak(s[0]) then p else Feed(p, s[0]), s[1..])
  }

  predicate Quiet(p: Parse, s: string)
    decreases |s|
  {
    s == [] || if IsBreak(s[0]) then p.mode == InQuotes && Quiet(p, s[1..]) else Quiet(Feed(p, s[0]), s[1..])
  }

  predicate Reads(p: Parse, s: string, q: Parse) {
    Quiet(p, s) && Skim(p, s) == q
  }

  lemma ReadsOne(p: Parse, c: char)
    requires !IsBreak(c)
    ensures Reads(p, [c], Feed(p, c))
  {
    assert [c][1..] == [];
  }

  lemma {:induction false} ReadsThen(p: Parse, a: string, m: Parse, b: string, q: Parse)
    requires Reads(p, a, m) && Reads(m, b, q)
    ensures Reads(p, a + b, q)
    decreases |a|
  {
    if a == [] {
      assert a + b == b;
    } else {
      ReadsThen(if IsBreak(a[0]) then p else Feed(p, a[0]), a[1..], m, b, q);
      assert (a + b)[1..] == a[1..] + b;
    }
  }

  function Unbroken(s: string): string {
    if s == [] then [] else (if IsBreak(s[0]) then [] else [s[0]]) + Unbroken(s[1..])
  }

  /** One character within quotes. */
  lemma ReadsQuoted(p: Parse, c: char) returns (m: Parse)
    requires p.mode == InQuotes
    ensures m == p.(cell := p.cell + Unbroken([c])) && Reads(p, Doubled([c]), m)
  {
    m := p.(cell := p.cell + Unbroken([c]));
    DoubledOne(c);
    assert "\"\"" == ['"'] + ['"'];
    if IsBreak(c) {
      assert p.cell + [] == p.cell && [c][1..] == [];
    } else {
      ReadsOne(p, c);
      if c == '"' {
        ReadsOne(Feed(p, c), c);
        ReadsThen(p, [c], Feed(p, c), [c], m);
      }
    }
  }

  lemma {:induction false} ReadsDoubled(p: Parse, f: string)
    requires p.mode == InQuotes
    ensures Reads(p, Doubled(f), p.(cell := p.cell + Unbroken(f)))
    decreases |f|
  {
    if f == [] {
      assert p.cell + [] == p.cell;
    } else {
      var m := ReadsQuoted(p, f[0]);
      ReadsDoubled(m, f[1..]);
      var q := m.(cell := m.cell + Unbroken(f[1..]));
      FirstOfDoubled(f);
      Regroup(p.cell, Unbroken([f[0]]), Unbroken(f[1..]));
      ReadsThen(p, Doubled([f[0]]), m, Doubled(f[1..]), q);
    }
  }

  lemma FirstOfDoubled(f: string)
    requires f != []
    ensures Doubled(f) == Doubled([f[0]]) + Doubled(f[1..]) && Unbroken(f) == Unbroken([f[0]]) + Unbroken(f[1..])
  {
    DoubledOne(f[0]);
  }

  lemma DoubledOne(c: char)
    ensures Doubled([c]) == (if c == '"' then "\"\"" else [c]) && Unbroken([c]) == if IsBreak(c) then [] else [c]
  {
    assert [c][1..] == [];
    assert Doubled([]) == [] && Unbroken([]) == [];
  }

  lemma {:induction false} ReadsPlain(p: Parse, f: string)
    requires p.mode == InCell && ';' !in f && !HasBreak(f)
    ensures Reads(p, f, p.(cell := p.cell + f))
    decreases |f|
  {
    if f == [] {
      assert p.cell + [] == p.cell;
    } else {
      assert !IsBreak(f[0]) && f[0] in f;
      assert forall i | 0 <= i < |f[1..]| :: f[1..][i] == f[i + 1];
      ReadsPlain(p.(cell := p.cell + [f[0]]), f[1..]);
      assert p.cell + f == p.cell + [f[0]] + f[1..];
    }
  }

  /** At the start of a cell. */
  predicate Fresh(p: Parse) {
    (p.mode == StartRecord || p.mode == StartCell) && p.cell == ""
  }

  /** A cell that breaks its line outside quotes. */
  predicate Stray(quotes: Quoting, f: string) {
    HasBreak(f) && !quotes(f)
  }

  lemma BreakIsSomewhere(f: string)
    requires f != []
    ensures HasBreak(f) <==> IsBreak(f[0]) || HasBreak(f[1..])
  {
    assert forall i | 0 <= i < |f[1..]| :: f[1..][i] == f[i + 1];
    if i :| 0 <= i < |f| && IsBreak(f[i]) {
      assert i > 0 ==> IsBreak(f[1..][i - 1]);
    }
  }

  lemma {:induction false} UnbrokenIff(f: string)
    ensures Unbroken(f) == f <==> !HasBreak(f)
    ensures |Unbroken(f)| <= |f| && !HasBreak(Unbroken(f))
  {
    if f != [] {
      var u := Unbroken(f[1..]);
      UnbrokenIff(f[1..]);
      BreakIsSomewhere(f);
      if !IsBreak(f[0]) {
        assert Unbroken(f) == [f[0]] + u && Unbroken(f)[1..] == u;
        BreakIsSomewhere([f[0]] + u);
      }
    }
  }

  /** A written cell is read as itself, without its breaks; only an empty one leaves the parse where it was. */
  lemma ReadsCell(quotes: Quoting, p: Parse, f: string) returns (q: Parse)
    requires Careful(quotes) && Fresh(p) && !Stray(quotes, f)
    ensures Reads(p, WriteCell(quotes, f), q) && q.cells == p.cells && q.cell == Unbroken(f)
    ensures q.mode == if quotes(f) then QuoteInQuotes else if f == [] then p.mode else InCell
  {
    if quotes(f) {
      var m := p.(mode := InQuotes);
      ReadsOne(p, '"');
      ReadsDoubled(m, f);
      q := m.(mode := QuoteInQuotes, cell := m.cell + Unbroken(f));
      ReadsOne(m.(cell := m.cell + Unbroken(f)), '"');
      ReadsThen(m, Doubled(f), m.(cell := m.cell + Unbroken(f)), "\"", q);
      ReadsThen(p, "\"", m, Doubled(f) + "\"", q);
      assert "\"" + (Doubled(f) + "\"") == WriteCell(quotes, f);
    } else if f == [] {
      q := p;
    } else {
      UnbrokenIff(f);
      assert f[0] in f && !IsBreak(f[0]);
      assert forall i | 0 <= i < |f[1..]| :: f[1..][i] == f[i + 1];
      var m := p.(mode := InCell, cell := [f[0]]);
      ReadsPlain(m, f[1..]);
      q := m.(cell := m.cell + f[1..]);
      ReadsOne(p, f[0]);
      ReadsThen(p, [f[0]], m, f[1..], q);
      assert f == [f[0]] + f[1..];
    }
  }

  function UnbrokenCells(r: Record): Record {
    seq(|r|, i requires 0 <= i < |r| => Unbroken(r[i]))
  }

  ghost predicate NoStray(quotes: Quoting, r: Record) {
    forall i | 0 <= i < |r| :: !Stray(quotes, r[i])
  }

  lemma ReadsNext(p: Parse, first: string, m: Parse, rest: string, q: Parse)
    requires Reads(p, first, m) && m.mode != InQuotes && Reads(Save(m, StartCell), rest, q)
    ensures Reads(p, first + (";" + rest), q)
  {
    ReadsOne(m, ';');
    ReadsThen(m, ";", Save(m, StartCell), rest, q);
    ReadsThen(p, first, m, ";" + rest, q);
  }

  lemma UnbrokenFirst(done: Record, r: Record)
    requires r != []
    ensures done + UnbrokenCells(r) == done + [Unbroken(r[0])] + UnbrokenCells(r[1..])
  {
  }

  lemma {:induction false} ReadsCells(quotes: Quoting, p: Parse, r: Record) returns (q: Parse)
    requires Careful(quotes) && Fresh(p) && r != [] && NoStray(quotes, r)
    requires p.mode == StartRecord ==> r != [""] || quotes("")
    ensures Reads(p, WriteCells(quotes, r), q) && q.mode != InQuotes
    ensures EndLine(q) == Parse(StartRecord, p.cells + UnbrokenCells(r), "")
    decreases |r|
  {
    var m := ReadsCell(quotes, p, r[0]);
    UnbrokenFirst(p.cells, r);
    if |r| == 1 {
      q := m;
    } else {
      q := ReadsCells(quotes, Save(m, StartCell), r[1..]);
      ReadsNext(p, WriteCell(quotes, r[0]), m, WriteCells(quotes, r[1..]), q);
    }
  }

  // ---- Reading a text back --------------------------------------------------------------------------------------

  lemma {:induction false} SkimLine(p: Parse, s: string, n: nat)
    requires n <= |s| && (forall i | 0 <= i < n :: !IsBreak(s[i])) && Quiet(p, s)
    ensures Quiet(FeedAll(p, s[..n]), s[n..]) && Skim(FeedAll(p, s[..n]), s[n..]) == Skim(p, s)
    decreases n
  {
    if n > 0 {
      SkimLine(Feed(p, s[0]), s[1..], n - 1);
      assert s[..n][1..] == s[1..][..n - 1] && s[1..][n - 1..] == s[n..];
    } else {
      assert s[0..] == s;
    }
  }

  lemma {:induction false} LineEndIs(t: string, n: nat)
    requires n < |t| && IsBreak(t[n]) && forall i | 0 <= i < n :: !IsBreak(t[i])
    ensures LineEnd(t) == n
  {
  }

  /** `s` is the first line of `t`, but for breaks of its own. */
  ghost predicate Begins(s: string, t: string) {
    |s| < |t| && t[..|s|] == s && t[|s|] == '\n' && (s == [] || !IsBreak(s[|s| - 1]))
  }

  /** The first line of a text ends where it did, whatever follows. */
  lemma FirstLine(s: string, t: string)
    requires Begins(s, t)
    ensures LineEnd(t) == LineEnd(s) && t[..LineEnd(s)] == s[..LineEnd(s)]
    ensures LineEnd(s) == |s| ==> BreakLength(t, |s|) == 1
    ensures LineEnd(s) < |s| ==> BreakLength(t, LineEnd(s)) == BreakLength(s, LineEnd(s))
  {
    var n := LineEnd(s);
    assert forall i | 0 <= i < |s| :: t[i] == s[i];
    LineEndIs(t, n);
  }

  lemma LaterLines(s: string, t: string, m: nat)
    requires Begins(s, t) && m < |s|
    ensures Begins(s[m..], t[m..]) && t[m..][|s| - m + 1..] == t[|s| + 1..]
  {
    assert t[m..][..|s| - m] == t[..|s|][m..];
  }

  lemma SkimBreak(m: Parse, s: string, k: nat)
    requires 1 <= k <= 2 && k <= |s| && (forall i | 0 <= i < k :: IsBreak(s[i])) && Quiet(m, s)
    ensures Quiet(m, s[k..]) && Skim(m, s[k..]) == Skim(m, s)
  {
    assert k == 2 ==> s[1..][1..] == s[2..];
  }

  /** The line up to the first break is fed whole; a break leaves the parse where it is, in quotes. */
  lemma ReadsLine(p: Parse, s: string, q: Parse)
    requires Reads(p, s, q)
    ensures var n := LineEnd(s);
            var m := FeedAll(p, s[..n]);
            if n == |s| then m == q
            else m.mode == InQuotes && Reads(m, s[n + BreakLength(s, n)..], q)
  {
    var n := LineEnd(s);
    SkimLine(p, s, n);
    if n < |s| {
      var k := BreakLength(s, n);
      SkimBreak(FeedAll(p, s[..n]), s[n..], k);
      assert s[n..][k..] == s[n + k..];
    } else {
      assert s[n..] == [];
    }
  }

  lemma ReadLine(p: Parse, t: string, n: nat, q: Parse)
    requires n == LineEnd(t) && n < |t| && q == EndLine(FeedAll(p, t[..n]))
    ensures var rest := SplitLines(t[n + BreakLength(t, n)..]);
            ReadLines(p, SplitLines(t))
            == if q.mode == StartRecord then [q.cells] + ReadLines(START, rest) else ReadLines(q, rest)
  {
    var rest := SplitLines(t[n + BreakLength(t, n)..]);
    var lines := [t[..n]] + rest;
    assert SplitLines(t) == lines && lines[0] == t[..n] && lines[1..] == rest;
  }

  lemma ReadsLastLine(p: Parse, s: string, q: Parse, t: string)
    requires Reads(p, s, q) && q.mode != InQuotes && Begins(s, t) && LineEnd(s) == |s|
    ensures ReadLines(p, SplitLines(t)) == [EndLine(q).cells] + ReadLines(START, SplitLines(t[|s| + 1..]))
  {
    FirstLine(s, t);
    ReadsLine(p, s, q);
    assert s[..|s|] == s;
    ReadLine(p, t, |s|, EndLine(q));
  }

  lemma SkipsLine(p: Parse, t: string, n: nat)
    requires n == LineEnd(t) && n < |t| && FeedAll(p, t[..n]).mode == InQuotes
    ensures ReadLines(p, SplitLines(t)) == ReadLines(FeedAll(p, t[..n]), SplitLines(t[n + BreakLength(t, n)..]))
  {
    ReadLine(p, t, n, FeedAll(p, t[..n]));
  }

  lemma ReadsInnerLine(p: Parse, s: string, q: Parse, t: string) returns (m: Parse, i: nat)
    requires Reads(p, s, q) && Begins(s, t) && LineEnd(s) < |s|
    ensures 0 < i < |s| && Reads(m, s[i..], q) && Begins(s[i..], t[i..])
    ensures ReadLines(p, SplitLines(t)) == ReadLines(m, SplitLines(t[i..]))
  {
    var n := LineEnd(s);
    m, i := FeedAll(p, s[..n]), n + BreakLength(s, n);
    ReadsLine(p, s, q);
    LaterLines(s, t, i);
    assert ReadLines(p, SplitLines(t)) == ReadLines(m, SplitLines(t[i..])) by {
      FirstLine(s, t);
      SkipsLine(p, t, n);
    }
  }

  /** A record whose breaks are all within quotes is read from its lines, and the rest after it. */
  lemma {:induction false} ReadsRecord(p: Parse, s: string, q: Parse, t: string)
    requires Reads(p, s, q) && q.mode != InQuotes && Begins(s, t)
    ensures ReadLines(p, SplitLines(t)) == [EndLine(q).cells] + ReadLines(START, SplitLines(t[|s| + 1..]))
    decreases |s|
  {
    if LineEnd(s) == |s| {
      ReadsLastLine(p, s, q, t);
    } else {
      var m, i := ReadsInnerLine(p, s, q, t);
      LaterLines(s, t, i);
      ReadsRecord(m, s[i..], q, t[i..]);
    }
  }

  lemma LastOfCells(quotes: Quoting, r: Record)
    requires r != [] && NoStray(quotes, r)
    ensures var s := WriteCells(quotes, r); s == [] || !IsBreak(s[|s| - 1])
  {
    var f := r[|r| - 1];
    if |r| > 1 {
      LastOfCells(quotes, r[1..]);
    } else if !quotes(f) && f != [] {
      assert !HasBreak(f);
    }
  }

  /** What stands before the end of line of a record. */
  lemma RecordText(quotes: Quoting, r: Record) returns (s: string, q: Parse)
    requires Careful(quotes) && NoStray(quotes, r)
    ensures WriteRecord(quotes, r) == s + "\n" && (s == [] || !IsBreak(s[|s| - 1]))
    ensures Reads(START, s, q) && q.mode != InQuotes && EndLine(q).cells == UnbrokenCells(r)
  {
    if r == [] {
      s, q := [], START;
    } else if r == [""] {
      s, q := "\"\"", Parse(QuoteInQuotes, [], "");
      ReadsOne(START, '"');
      ReadsOne(Feed(START, '"'), '"');
      ReadsThen(START, "\"", Feed(START, '"'), "\"", q);
      assert UnbrokenCells(r) == [""];
    } else {
      s := WriteCells(quotes, r);
      q := ReadsCells(quotes, START, r);
      LastOfCells(quotes, r);
      assert [] + UnbrokenCells(r) == UnbrokenCells(r);
    }
  }

  lemma ReadsWritten(quotes: Quoting, r: Record, rest: string)
    requires Careful(quotes) && NoStray(quotes, r)
    ensures Read(WriteRecord(quotes, r) + rest) == [UnbrokenCells(r)] + Read(rest)
  {
    var s, q := RecordText(quotes, r);
    var t := WriteRecord(quotes, r) + rest;
    assert t[..|s|] == s && t[|s| + 1..] == rest;
    ReadsRecord(START, s, q, t);
  }

  ghost predicate NoStrays(quotes: Quoting, records: seq<Record>) {
    forall r | r in records :: NoStray(quotes, r)
  }

  function UnbrokenRecords(records: seq<Record>): seq<Record> {
    seq(|records|, i requires 0 <= i < |records| => UnbrokenCells(records[i]))
  }

  /** If no cell breaks its line outside quotes, the records are read back, but for the breaks within quotes. */
  lemma {:induction false} ReadBack(quotes: Quoting, records: seq<Record>)
    requires Careful(quotes) && NoStrays(quotes, records)
    ensures Read(Write(quotes, records)) == UnbrokenRecords(records)
  {
    if records != [] {
      var r := records[0];
      assert r in records && forall s | s in records[1..] :: s in records;
      ReadsWritten(quotes, r, Write(quotes, records[1..]));
      ReadBack(quotes, records[1..]);
      assert UnbrokenRecords(records) == [UnbrokenCells(r)] + UnbrokenRecords(records[1..]);
    }
  }

  // ---- What can be read at all ------------------------------------------------------------------------------------

  ghost predicate BreakFree(r: Record) {
    forall i | 0 <= i < |r| :: !HasBreak(r[i])
  }

  ghost predicate AllBreakFree(records: seq<Record>) {
    forall r | r in records :: BreakFree(r)
  }

  lemma {:induction false} LinesAreUnbroken(s: string)
    ensures forall l | l in SplitLines(s) :: !HasBreak(l)
    decreases |s|
  {
    if s != [] {
      var n := LineEnd(s);
      if n < |s| {
        LinesAreUnbroken(s[n + BreakLength(s, n)..]);
      }
    }
  }

  lemma {:induction false} FeedKeepsBreakFree(p: Parse, s: string)
    requires BreakFree(p.cells) && !HasBreak(p.cell) && !HasBreak(s)
    ensures BreakFree(FeedAll(p, s).cells) && !HasBreak(FeedAll(p, s).cell)
    decreases |s|
  {
    if s != [] {
      assert !IsBreak(s[0]) && !HasBreak(s[1..]) by {
        assert forall i | 0 <= i < |s[1..]| :: s[1..][i] == s[i + 1];
      }
      FeedKeepsBreakFree(Feed(p, s[0]), s[1..]);
    }
  }

  lemma {:induction false} ReadIsBreakFree(p: Parse, lines: seq<string>)
    requires BreakFree(p.cells) && !HasBreak(p.cell) && forall l | l in lines :: !HasBreak(l)
    ensures AllBreakFree(ReadLines(p, lines))
    decreases |lines|
  {
    if lines != [] {
      assert lines[0] in lines && forall l | l in lines[1..] :: l in lines;
      FeedKeepsBreakFree(p, lines[0]);
      var q := EndLine(FeedAll(p, lines[0]));
      ReadIsBreakFree(START, lines[1..]);
      ReadIsBreakFree(q, lines[1..]);
    }
  }

  /** No cell read from any text holds a line break. */
  lemma ReadHasNoBreaks(text: string)
    ensures AllBreakFree(Read(text))
  {
    LinesAreUnbroken(text);
    ReadIsBreakFree(START, SplitLines(text));
  }

  /** A text written and read back gives the records it was written from, if and only if no cell holds a line break,
      whatever else the writer chooses to quote. */
  lemma TextRoundTripIff(quotes: Quoting, records: seq<Record>)
    requires Careful(quotes)
    ensures Read(Write(quotes, records)) == records <==> AllBreakFree(records)
  {
    ReadHasNoBreaks(Write(quotes, records));
    if AllBreakFree(records) {
      ReadBack(quotes, records);
      forall i, j | 0 <= i < |records| && 0 <= j < |records[i]|
        ensures Unbroken(records[i][j]) == records[i][j]
      {
        assert records[i] in records && BreakFree(records[i]);
        UnbrokenIff(records[i][j]);
      }
      forall i | 0 <= i < |records|
        ensures UnbrokenCells(records[i]) == records[i]
      {
      }
      assert UnbrokenRecords(records) == records;
    }
  }

  // ---- Line ends of other systems -----------------------------------------------------------------------------------

  /** Reading a file as text turns every end of line into `\n`. */
  function Universal(s: string): string
    decreases |s|
  {
    if s == [] then []
    else if s[0] != '\r' then [s[0]] + Universal(s[1..])
    else "\n" + Universal(if |s| > 1 && s[1] == '\n' then s[2..] else s[1..])
  }

  /** The first line stays, and the break after it becomes one character. */
  lemma {:induction false} UniversalLine(s: string, n: nat)
    requires n < |s| && IsBreak(s[n]) && forall i | 0 <= i < n :: !IsBreak(s[i])
    ensures var t := Universal(s);
            && n < |t| && t[..n] == s[..n] && IsBreak(t[n]) && t[n] != '\r'
            && t[n + 1..] == Universal(s[n + BreakLength(s, n)..])
    decreases n
  {
    var t := Universal(s);
    if n > 0 {
      var r, u := s[1..], Universal(s[1..]);
      assert forall i | 0 <= i < n - 1 :: r[i] == s[i + 1];
      UniversalLine(r, n - 1);
      assert t == [s[0]] + u && BreakLength(r, n - 1) == BreakLength(s, n);
      assert r[n - 1 + BreakLength(s, n)..] == s[n + BreakLength(s, n)..];
      assert t[..n] == [s[0]] + u[..n - 1] && s[..n] == [s[0]] + r[..n - 1];
      assert t[n + 1..] == u[n..];
    }
  }

  lemma {:induction false} UniversalStays(s: string)
    requires LineEnd(s) == |s|
    ensures Universal(s) == s
    decreases |s|
  {
    if s != [] {
      UniversalStays(s[1..]);
    }
  }

  lemma {:induction false} UniversalLines(s: string)
    ensures SplitLines(Universal(s)) == SplitLines(s)
    decreases |s|
  {
    var n := LineEnd(s);
    if n == |s| {
      UniversalStays(s);
    } else {
      UniversalLine(s, n);
      UniversalLines(s[n + BreakLength(s, n)..]);
      var t := Universal(s);
      FirstBreak(t, n, s[..n]);
    }
  }

  lemma FirstBreak(t: string, n: nat, line: string)
    requires n < |t| && t[..n] == line && LineEnd(line) == |line| && IsBreak(t[n]) && t[n] != '\r'
    ensures SplitLines(t) == [line] + SplitLines(t[n + 1..])
  {
    assert forall i | 0 <= i < n :: t[i] == line[i];
    LineEndIs(t, n);
  }

  /** So the records read do not depend on it. */
  lemma UniversalReads(text: string)
    ensures Read(Universal(text)) == Read(text)
  {
    UniversalLines(text);
  }
}
