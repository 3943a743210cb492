/** Narrative clean-up (`normalize_narrative`) and what it does to quotes. */
module Narrative {
  import opened Text
  import opened Quotes

  const BOM := '\U{FEFF}'

  function RemoveBom(s: string): string {
    if s == [] then []
    else (if s[0] == BOM then [] else [s[0]]) + RemoveBom(s[1..])
  }

  /** `\r\n` and `\r` become `\n`. */
  function Newlines(s: string): string {
    if s == [] then []
    else if |s| > 1 && s[0] == '\r' && s[1] == '\n' then "\n" + Newlines(s[2..])
    else [if s[0] == '\r' then '\n' else s[0]] + Newlines(s[1..])
  }

  /** Category C goes, except newline and tab. */
  function DropControls(u: Unicode, s: string): string {
    if s == [] then []
    else (if s[0] == '\n' || s[0] == '\t' || !u.control(s[0]) then [s[0]] else []) + DropControls(u, s[1..])
  }

  function TabsToSpaces(s: string): string {
    if s == [] then [] else [if s[0] == '\t' then ' ' else s[0]] + TabsToSpaces(s[1..])
  }

  /** `[ ]{2,}` becomes one space. */
  function CollapseSpaces(s: string): string {
    if s == [] then []
    else if |s| > 1 && s[0] == ' ' && s[1] == ' ' then CollapseSpaces(s[1..])
    else [s[0]] + CollapseSpaces(s[1..])
  }

  function SpaceRun(s: string): (n: nat)
    ensures n <= |s|
    ensures forall i | 0 <= i < n :: s[i] == ' '
    ensures n < |s| ==> s[n] != ' '
  {
    if s != [] && s[0] == ' ' then 1 + SpaceRun(s[1..]) else 0
  }

  /** ` *\n *` becomes `\n`. */
  function TrimLines(s: string): string
    decreases |s|
  {
    if s == [] then []
    else
      var n := SpaceRun(s);
      if n < |s| && s[n] == '\n' then
        var rest := s[n + 1..];
        "\n" + TrimLines(rest[SpaceRun(rest)..])
      else [s[0]] + TrimLines(s[1..])
  }

  /** `\n{3,}` becomes `\n\n`. */
  function CapBlankLines(s: string): string {
    if s == [] then []
    else if |s| > 2 && s[0] == '\n' && s[1] == '\n' && s[2] == '\n' then CapBlankLines(s[1..])
    else [s[0]] + CapBlankLines(s[1..])
  }

  function NormalizeNarrative(u: Unicode, raw: string): string {
    var text := DropControls(u, Newlines(RemoveBom(raw)));
    Strip(CapBlankLines(TrimLines(CollapseSpaces(TabsToSpaces(text)))))
  }

  // ---- Idempotence -----------------------------------------------------------------------------

  ghost predicate NoControls(u: Unicode, s: string) {
    forall i | 0 <= i < |s| :: u.control(s[i]) ==> s[i] == '\n'
  }

  ghost predicate NoDoubleSpace(s: string) {
    forall i | 0 <= i < |s| - 1 :: !(s[i] == ' ' && s[i + 1] == ' ')
  }

  ghost predicate NoEdgeSpace(s: string) {
    forall i | 0 <= i < |s| - 1 :: !(s[i] == ' ' && s[i + 1] == '\n') && !(s[i] == '\n' && s[i + 1] == ' ')
  }

  ghost predicate NoTripleNewline(s: string) {
    forall i | 0 <= i < |s| - 2 :: !(s[i] == '\n' && s[i + 1] == '\n' && s[i + 2] == '\n')
  }

  ghost predicate Clean(u: Unicode, s: string) {
    NoControls(u, s) && NoDoubleSpace(s) && NoEdgeSpace(s) && NoTripleNewline(s)
  }

  lemma {:induction false} DropLeaves(u: Unicode, s: string)
    ensures forall c | c in DropControls(u, s) && u.control(c) :: c == '\n' || c == '\t'
  {
    if s != [] {
      DropLeaves(u, s[1..]);
    }
  }

  lemma {:induction false} TabsLeave(u: Unicode, s: string)
    requires u.Faithful()
    requires forall c | c in s && u.control(c) :: c == '\n' || c == '\t'
    ensures NoControls(u, TabsToSpaces(s))
  {
    if s != [] {
      assert s[0] in s && forall c | c in s[1..] :: c in s;
      TabsLeave(u, s[1..]);
      assert !u.control(' ');
    }
  }

  lemma {:induction false} CollapseLeaves(u: Unicode, s: string)
    requires NoControls(u, s)
    ensures NoControls(u, CollapseSpaces(s)) && NoDoubleSpace(CollapseSpaces(s))
    ensures s != [] ==> CollapseSpaces(s) != [] && CollapseSpaces(s)[0] == s[0]
  {
    if s != [] {
      CollapseLeaves(u, s[1..]);
    }
  }

  ghost predicate Trimmed(u: Unicode, s: string) {
    NoControls(u, s) && NoDoubleSpace(s) && NoEdgeSpace(s)
  }

  lemma TrimmedCons(u: Unicode, c: char, t: string)
    requires Trimmed(u, t) && (u.control(c) ==> c == '\n')
    requires t != [] && c == ' ' ==> t[0] != ' ' && t[0] != '\n'
    requires t != [] && c == '\n' ==> t[0] != ' '
    ensures Trimmed(u, [c] + t)
  {
    var s := [c] + t;
    assert forall i | 1 <= i < |s| :: s[i] == t[i - 1];
  }

  /** The first character of a trimmed text is that of the text, unless spaces before a line end go. */
  lemma {:induction false} TrimLeaves(u: Unicode, s: string)
    requires u.Faithful() && NoControls(u, s) && NoDoubleSpace(s)
    ensures var t := TrimLines(s);
            Trimmed(u, t) && (t != [] ==> s != [] && (t[0] == s[0] || (t[0] == '\n' && s[0] == ' ')))
    decreases |s|
  {
    if s != [] {
      var n := SpaceRun(s);
      if n < |s| && s[n] == '\n' {
        var rest := s[n + 1..];
        var k := SpaceRun(rest);
        TrimLeaves(u, rest[k..]);
        TrimmedCons(u, '\n', TrimLines(rest[k..]));
      } else {
        TrimLeaves(u, s[1..]);
        if s[0] == ' ' && |s| > 1 {
          assert s[1] != ' ';
          assert n == 1;
        }
        TrimmedCons(u, s[0], TrimLines(s[1..]));
      }
    }
  }

  lemma {:induction false} CapLeaves(u: Unicode, s: string)
    requires NoControls(u, s) && NoDoubleSpace(s) && NoEdgeSpace(s)
    ensures Clean(u, CapBlankLines(s))
    ensures s != [] ==> CapBlankLines(s) != [] && CapBlankLines(s)[0] == s[0]
    ensures |s| > 1 && s[0] == '\n' && s[1] != '\n' ==> |CapBlankLines(s)| > 1 && CapBlankLines(s)[1] == s[1]
  {
    if s != [] {
      CapLeaves(u, s[1..]);
    }
  }

  /** Every pass before the last leaves a clean text alone. */
  lemma {:induction false} CharsAreFixed(u: Unicode, s: string)
    requires u.Faithful() && NoControls(u, s)
    ensures RemoveBom(s) == s && Newlines(s) == s && DropControls(u, s) == s && TabsToSpaces(s) == s
  {
    if s != [] {
      CharsAreFixed(u, s[1..]);
      assert s[0] != BOM && s[0] != '\r' && s[0] != '\t';
    }
  }

  lemma {:induction false} RunsAreFixed(s: string)
    requires NoDoubleSpace(s) && NoTripleNewline(s)
    ensures CollapseSpaces(s) == s && CapBlankLines(s) == s
  {
    if s != [] {
      RunsAreFixed(s[1..]);
    }
  }

  lemma {:induction false} RunMeetsNoNewline(s: string)
    requires NoEdgeSpace(s) && s != [] && s[0] == ' '
    ensures SpaceRun(s) == |s| || s[SpaceRun(s)] != '\n'
  {
    var rest := s[1..];
    assert forall i | 0 <= i < |rest| :: rest[i] == s[i + 1];
    if rest != [] && rest[0] == ' ' {
      RunMeetsNoNewline(rest);
    } else if rest != [] {
      assert SpaceRun(rest) == 0 && s[1] != '\n';
    }
  }

  lemma TrimStep(s: string)
    requires s != [] && NoEdgeSpace(s)
    ensures TrimLines(s) == [s[0]] + TrimLines(s[1..])
  {
    if s[0] == ' ' {
      RunMeetsNoNewline(s);
    } else if s[0] == '\n' {
      var rest := s[1..];
      if rest != [] {
        assert rest[0] == s[1] && s[1] != ' ';
      }
      assert SpaceRun(s) == 0 && SpaceRun(rest) == 0 && rest[0..] == rest;
    }
  }

  lemma {:induction false} LinesAreFixed(s: string)
    requires NoEdgeSpace(s)
    ensures TrimLines(s) == s
  {
    if s != [] {
      var rest := s[1..];
      assert forall i | 0 <= i < |rest| :: rest[i] == s[i + 1];
      TrimStep(s);
      LinesAreFixed(rest);
    }
  }

  lemma CleanSlice(u: Unicode, a: string, m: string, b: string)
    requires Clean(u, a + m + b)
    ensures Clean(u, m)
  {
    var s, k := a + m + b, |a|;
    assert forall i | 0 <= i < |m| :: m[i] == s[k + i];
    forall i | 0 <= i < |m| - 1
      ensures !(m[i] == ' ' && m[i + 1] == ' ') && !(m[i] == ' ' && m[i + 1] == '\n')
              && !(m[i] == '\n' && m[i + 1] == ' ')
    {
      assert s[k + i] == m[i] && s[k + i + 1] == m[i + 1];
    }
    forall i | 0 <= i < |m| - 2
      ensures !(m[i] == '\n' && m[i + 1] == '\n' && m[i + 2] == '\n')
    {
      assert s[k + i] == m[i] && s[k + i + 1] == m[i + 1] && s[k + i + 2] == m[i + 2];
    }
  }

  lemma NormalizedIsClean(u: Unicode, raw: string) returns (t: string)
    requires u.Faithful()
    ensures Clean(u, NormalizeNarrative(u, raw)) && NormalizeNarrative(u, raw) == Strip(t)
  {
    var s := Newlines(RemoveBom(raw));
    DropLeaves(u, s);
    TabsLeave(u, DropControls(u, s));
    CollapseLeaves(u, TabsToSpaces(DropControls(u, s)));
    var c := CollapseSpaces(TabsToSpaces(DropControls(u, s)));
    TrimLeaves(u, c);
    CapLeaves(u, TrimLines(c));
    t := CapBlankLines(TrimLines(c));
    var a, b := StripSplit(t);
    CleanSlice(u, a, Strip(t), b);
  }

  lemma NarrativeIdempotent(u: Unicode, raw: string)
    requires u.Faithful()
    ensures NormalizeNarrative(u, NormalizeNarrative(u, raw)) == NormalizeNarrative(u, raw)
  {
    var t := NormalizedIsClean(u, raw);
    var n := NormalizeNarrative(u, raw);
    CharsAreFixed(u, n);
    RunsAreFixed(n);
    LinesAreFixed(n);
    var a, b := StripSplit(t);
    StripPadded("", n, "");
    assert "" + n + "" == n;
  }

  // ---- Effect on quotes ------------------------------------------------------------------------

  /** Characters the clean-up removes; line ends are kept, in another form. */
  predicate Removed(u: Unicode, c: char) {
    u.control(c) && c != '\n' && c != '\t' && c != '\r'
  }

  function Kept(u: Unicode, s: string): string {
    if s == [] then []
    else (if Removed(u, s[0]) then [] else [s[0]]) + Kept(u, s[1..])
  }

  /** A blank stretch may be replaced by any other blank stretch. */
  lemma BlanksAreAlike(p: string, x: string, y: string, q: string)
    requires Blank(x) && Blank(y) && (x == [] <==> y == [])
    ensures Canon(p + x + q) == Canon(p + y + q)
  {
    CanonConcat(p + x, q);
    CanonConcat(p + y, q);
    CanonConcat(p, x);
    CanonConcat(p, y);
    CanonBlank(x);
    CanonBlank(y);
  }

  /** The two forms of a text that agree after any folded prefix. */
  ghost predicate SameQuotes(u: Unicode, p: string, s: string, t: string) {
    Canon(p + Fold(u, s)) == Canon(p + Fold(u, t))
  }

  lemma SameQuotesStep(u: Unicode, p: string, x: string, y: string, s: string, t: string)
    requires u.Faithful()
    requires x == y || (x != [] && y != [] && Spacing(u, x) && Spacing(u, y))
    requires SameQuotes(u, p + Fold(u, y), s, t)
    ensures SameQuotes(u, p, x + s, y + t)
  {
    FoldConcat(u, x, s);
    FoldConcat(u, y, t);
    if x != y {
      FoldBlank(u, x);
      FoldBlank(u, y);
    }
    SwapPrefix(p, Fold(u, x), Fold(u, y), Fold(u, s), Fold(u, t));
  }

  lemma SwapPrefix(p: string, x: string, y: string, s: string, t: string)
    requires x == y || (x != [] && y != [] && Blank(x) && Blank(y))
    requires Canon(p + y + s) == Canon(p + y + t)
    ensures Canon(p + (x + s)) == Canon(p + (y + t))
  {
    assert p + (x + s) == p + x + s;
    assert p + (y + t) == p + y + t;
    if x != y {
      BlanksAreAlike(p, x, y, s);
    }
  }

  ghost predicate Spacing(u: Unicode, x: string) {
    forall i | 0 <= i < |x| :: IsSpace(x[i]) || u.control(x[i])
  }

  lemma {:induction false} CollapseSame(u: Unicode, p: string, s: string)
    requires u.Faithful()
    ensures SameQuotes(u, p, CollapseSpaces(s), s)
    decreases |s|
  {
    if s != [] {
      if |s| > 1 && s[0] == ' ' && s[1] == ' ' {
        CollapseSame(u, p, s[1..]);
        assert SameQuotes(u, p + Fold(u, "  "), s[2..], s[2..]);
        SameQuotesStep(u, p, " ", "  ", s[2..], s[2..]);
        assert " " + s[2..] == s[1..] && "  " + s[2..] == s;
      } else {
        CollapseSame(u, p + Fold(u, [s[0]]), s[1..]);
        SameQuotesStep(u, p, [s[0]], [s[0]], CollapseSpaces(s[1..]), s[1..]);
        assert [s[0]] + s[1..] == s;
      }
    }
  }

  lemma {:induction false} CapSame(u: Unicode, p: string, s: string)
    requires u.Faithful()
    ensures SameQuotes(u, p, CapBlankLines(s), s)
    decreases |s|
  {
    if s != [] {
      if |s| > 2 && s[0] == '\n' && s[1] == '\n' && s[2] == '\n' {
        CapSame(u, p, s[1..]);
        SameQuotesStep(u, p, "\n", "\n\n", s[2..], s[2..]);
        assert "\n" + s[2..] == s[1..] && "\n\n" + s[2..] == s;
      } else {
        CapSame(u, p + Fold(u, [s[0]]), s[1..]);
        SameQuotesStep(u, p, [s[0]], [s[0]], CapBlankLines(s[1..]), s[1..]);
        assert [s[0]] + s[1..] == s;
      }
    }
  }

  lemma {:induction false} TabsSame(u: Unicode, p: string, s: string)
    requires u.Faithful()
    ensures SameQuotes(u, p, TabsToSpaces(s), s)
    decreases |s|
  {
    if s != [] {
      TabsSame(u, p + Fold(u, [s[0]]), s[1..]);
      SameQuotesStep(u, p, [if s[0] == '\t' then ' ' else s[0]], [s[0]], TabsToSpaces(s[1..]), s[1..]);
      assert [s[0]] + s[1..] == s;
    }
  }

  /** One match of ` *\n *`: what it consumes, and where the scan resumes. */
  lemma LineBreak(u: Unicode, s: string) returns (x: string, q: string)
    requires s != [] && SpaceRun(s) < |s| && s[SpaceRun(s)] == '\n'
    ensures s == x + q && x != [] && Spacing(u, x)
    ensures TrimLines(s) == "\n" + TrimLines(q)
  {
    var n := SpaceRun(s);
    var rest := s[n + 1..];
    var k := SpaceRun(rest);
    x, q := s[..n + 1 + k], rest[k..];
    assert forall i | 0 <= i < k :: s[n + 1 + i] == rest[i];
  }

  lemma {:induction false} LinesSame(u: Unicode, p: string, s: string)
    requires u.Faithful()
    ensures SameQuotes(u, p, TrimLines(s), s)
    decreases |s|
  {
    if s != [] {
      if SpaceRun(s) < |s| && s[SpaceRun(s)] == '\n' {
        var x, q := LineBreak(u, s);
        LinesSame(u, p + Fold(u, x), q);
        SameQuotesStep(u, p, "\n", x, TrimLines(q), q);
      } else {
        LinesSame(u, p + Fold(u, [s[0]]), s[1..]);
        SameQuotesStep(u, p, [s[0]], [s[0]], TrimLines(s[1..]), s[1..]);
        assert [s[0]] + s[1..] == s;
      }
    }
  }

  /** One step of the two character passes: `y` is emitted where the text keeps `x`. */
  lemma ControlsStep(u: Unicode, s: string) returns (x: string, y: string, rest: string)
    requires u.Faithful() && s != []
    ensures |rest| < |s|
    ensures DropControls(u, Newlines(s)) == y + DropControls(u, Newlines(rest))
    ensures Kept(u, s) == x + Kept(u, rest)
    ensures x == y || (x != [] && y != [] && Spacing(u, x) && Spacing(u, y))
  {
    if |s| > 1 && s[0] == '\r' && s[1] == '\n' {
      x, y, rest := "\r\n", "\n", s[2..];
      assert Newlines(s)[1..] == Newlines(rest);
      assert s[1..][1..] == rest && Kept(u, s[1..]) == "\n" + Kept(u, rest);
    } else {
      rest := s[1..];
      assert Newlines(s)[1..] == Newlines(rest);
      if Removed(u, s[0]) {
        x, y := [], [];
      } else {
        x, y := [s[0]], [if s[0] == '\r' then '\n' else s[0]];
      }
    }
  }

  lemma {:induction false} ControlsSame(u: Unicode, p: string, s: string)
    requires u.Faithful()
    ensures SameQuotes(u, p, DropControls(u, Newlines(s)), Kept(u, s))
    decreases |s|
  {
    if s != [] {
      var x, y, rest := ControlsStep(u, s);
      ControlsSame(u, p + Fold(u, x), rest);
      SameQuotesStep(u, p, y, x, DropControls(u, Newlines(rest)), Kept(u, rest));
    }
  }

  lemma {:induction false} BomIsRemoved(u: Unicode, s: string)
    requires u.Faithful()
    ensures Kept(u, RemoveBom(s)) == Kept(u, s)
  {
    if s != [] {
      BomIsRemoved(u, s[1..]);
      if s[0] == BOM {
        assert RemoveBom(s) == RemoveBom(s[1..]) && Kept(u, s) == Kept(u, s[1..]);
      } else {
        assert RemoveBom(s)[1..] == RemoveBom(s[1..]);
      }
    }
  }

  /** The clean-up changes the normal form of a text only by the characters it removes. */
  lemma NarrativeQuotes(u: Unicode, raw: string)
    requires u.Faithful()
    ensures NormalizeQuote(u, NormalizeNarrative(u, raw)) == Canon(Fold(u, Kept(u, raw)))
  {
    var s0 := RemoveBom(raw);
    var s1 := DropControls(u, Newlines(s0));
    var s2 := TabsToSpaces(s1);
    var s3 := CollapseSpaces(s2);
    var s4 := TrimLines(s3);
    var s5 := CapBlankLines(s4);
    assert forall s :: "" + Fold(u, s) == Fold(u, s);
    CapSame(u, "", s4);
    LinesSame(u, "", s3);
    CollapseSame(u, "", s2);
    TabsSame(u, "", s1);
    ControlsSame(u, "", s0);
    BomIsRemoved(u, raw);
    var a, b := StripSplit(s5);
    PassesComputeCanon(u, Strip(s5));
    FoldConcat(u, a + Strip(s5), b);
    FoldConcat(u, a, Strip(s5));
    FoldBlank(u, a);
    FoldBlank(u, b);
    CanonPadded(Fold(u, a), Fold(u, Strip(s5)), Fold(u, b));
  }
}
