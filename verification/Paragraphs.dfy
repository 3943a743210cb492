/** The clean-up of a narrative keeps its paragraphs: what stands on either side of a run of line ends is cleaned
    apart, and a blank line stays a blank line. */
module Paragraphs {
  import opened Text
  import opened Narrative

  /** Neither blank nor removed. */
  predicate Visible(u: Unicode, c: char) {
    !IsSpace(c) && !u.control(c)
  }

  /** A visible character stands on one side of the cut at least. */
  predicate Cut(u: Unicode, a: string, b: string) {
    (a != [] && Visible(u, a[|a| - 1])) || (b != [] && Visible(u, b[0]))
  }

  lemma {:induction false} BomConcat(a: string, b: string)
    ensures RemoveBom(a + b) == RemoveBom(a) + RemoveBom(b)
  {
    if a == [] {
      assert a + b == b;
    } else {
      SumFrom(a, b, 1);
      BomConcat(a[1..], b);
      Regroup(if a[0] == BOM then [] else [a[0]], RemoveBom(a[1..]), RemoveBom(b));
    }
  }

  lemma {:induction false} NewlinesConcat(a: string, b: string)
    requires a == [] || b == [] || a[|a| - 1] != '\r' || b[0] != '\n'
    ensures Newlines(a + b) == Newlines(a) + Newlines(b)
    decreases |a|
  {
    if a == [] {
      assert a + b == b;
    } else {
      var n := if |a| > 1 && a[0] == '\r' && a[1] == '\n' then 2 else 1;
      SumFrom(a, b, n);
      NewlinesConcat(a[n..], b);
      Regroup([if a[0] == '\r' then '\n' else a[0]], Newlines(a[n..]), Newlines(b));
    }
  }

  lemma {:induction false} DropConcat(u: Unicode, a: string, b: string)
    ensures DropControls(u, a + b) == DropControls(u, a) + DropControls(u, b)
  {
    if a == [] {
      assert a + b == b;
    } else {
      SumFrom(a, b, 1);
      DropConcat(u, a[1..], b);
      Regroup(DropControls(u, [a[0]]), DropControls(u, a[1..]), DropControls(u, b));
      assert [a[0]][1..] == [];
    }
  }

  lemma {:induction false} TabsConcat(a: string, b: string)
    ensures TabsToSpaces(a + b) == TabsToSpaces(a) + TabsToSpaces(b)
  {
    if a == [] {
      assert a + b == b;
    } else {
      SumFrom(a, b, 1);
      TabsConcat(a[1..], b);
      Regroup([if a[0] == '\t' then ' ' else a[0]], TabsToSpaces(a[1..]), TabsToSpaces(b));
    }
  }

  lemma {:induction false} CollapseConcat(a: string, b: string)
    requires a == [] || b == [] || a[|a| - 1] != ' ' || b[0] != ' '
    ensures CollapseSpaces(a + b) == CollapseSpaces(a) + CollapseSpaces(b)
    decreases |a|
  {
    if a == [] {
      assert a + b == b;
    } else {
      SumFrom(a, b, 1);
      CollapseConcat(a[1..], b);
      Regroup([a[0]], CollapseSpaces(a[1..]), CollapseSpaces(b));
    }
  }

  lemma {:induction false} CapConcat(a: string, b: string)
    requires a == [] || b == [] || a[|a| - 1] != '\n' || b[0] != '\n'
    ensures CapBlankLines(a + b) == CapBlankLines(a) + CapBlankLines(b)
    decreases |a|
  {
    if a == [] {
      assert a + b == b;
    } else {
      SumFrom(a, b, 1);
      CapConcat(a[1..], b);
      Regroup([a[0]], CapBlankLines(a[1..]), CapBlankLines(b));
    }
  }

  lemma {:induction false} SpaceRunConcat(u: Unicode, a: string, b: string)
    requires Cut(u, a, b)
    ensures SpaceRun(a + b) == SpaceRun(a)
    ensures a != [] && Visible(u, a[|a| - 1]) ==> SpaceRun(a) < |a|
  {
    if a == [] {
      assert a + b == b;
    } else if a[0] == ' ' {
      assert (a + b)[1..] == a[1..] + b;
      SpaceRunConcat(u, a[1..], b);
    }
  }

  lemma TrimUnfolds(s: string, n: nat, rest: string, t: string)
    requires n == SpaceRun(s) && n < |s| && s[n] == '\n' && rest == s[n + 1..] && t == rest[SpaceRun(rest)..]
    ensures TrimLines(s) == "\n" + TrimLines(t)
  {
  }

  lemma TrimAtLine(s: string, n: nat, k: nat, t: string)
    requires n == SpaceRun(s) && n < |s| && s[n] == '\n' && k == SpaceRun(s[n + 1..])
    requires n + 1 + k <= |s| && t == s[n + 1 + k..]
    ensures TrimLines(s) == "\n" + TrimLines(t)
  {
    FromFrom(s, n + 1, k);
    TrimUnfolds(s, n, s[n + 1..], t);
  }

  lemma TrimElsewhere(s: string)
    requires s != [] && (SpaceRun(s) == |s| || s[SpaceRun(s)] != '\n')
    ensures TrimLines(s) == [s[0]] + TrimLines(s[1..])
  {
  }

  lemma {:induction false} TrimConcat(u: Unicode, a: string, b: string)
    requires Cut(u, a, b)
    ensures TrimLines(a + b) == TrimLines(a) + TrimLines(b)
    decreases |a|
  {
    if a == [] {
      assert a + b == b;
    } else {
      var m := TrimSum(u, a, b);
      if m == |a| {
        assert a[m..] == [] && [] + b == b;
      } else {
        TrimConcat(u, a[m..], b);
      }
    }
  }

  /** One step: after a line end with the spaces around it, or after one character. */
  lemma TrimSum(u: Unicode, a: string, b: string) returns (m: nat)
    requires Cut(u, a, b) && a != []
    ensures 0 < m <= |a| && (m < |a| ==> Cut(u, a[m..], b))
    ensures TrimLines(a[m..] + b) == TrimLines(a[m..]) + TrimLines(b) ==>
              TrimLines(a + b) == TrimLines(a) + TrimLines(b)
  {
    var n := SpaceRun(a);
    var first := [a[0]];
    if n < |a| && a[n] == '\n' {
      var k := SpaceRun(a[n + 1..]);
      m, first := n + 1 + k, "\n";
      RunsOfSum(u, a, b, n, k);
      TrimSumAtLine(u, a, b, n, k);
    } else {
      m := 1;
      TrimSumElsewhere(u, a, b);
    }
    Regroup(first, TrimLines(a[m..]), TrimLines(b));
  }

  lemma RunsOfSum(u: Unicode, a: string, b: string, n: nat, k: nat)
    requires Cut(u, a, b) && n == SpaceRun(a) && n < |a| && a[n] == '\n' && k == SpaceRun(a[n + 1..])
    ensures SpaceRun(a + b) == n && (a + b)[n] == '\n' && SpaceRun((a + b)[n + 1..]) == k
    ensures Cut(u, a[n + 1 + k..], b)
  {
    SpaceRunConcat(u, a, b);
    SpaceRunConcat(u, a[n + 1..], b);
    SumFrom(a, b, n + 1);
  }

  lemma TrimSumAtLine(u: Unicode, a: string, b: string, n: nat, k: nat)
    requires Cut(u, a, b) && n == SpaceRun(a) && n < |a| && a[n] == '\n' && k == SpaceRun(a[n + 1..])
    ensures TrimLines(a) == "\n" + TrimLines(a[n + 1 + k..])
    ensures TrimLines(a + b) == "\n" + TrimLines(a[n + 1 + k..] + b)
  {
    RunsOfSum(u, a, b, n, k);
    SumFrom(a, b, n + 1 + k);
    TrimAtLine(a, n, k, a[n + 1 + k..]);
    TrimAtLine(a + b, n, k, a[n + 1 + k..] + b);
  }

  lemma TrimSumElsewhere(u: Unicode, a: string, b: string)
    requires Cut(u, a, b) && a != [] && (SpaceRun(a) == |a| || a[SpaceRun(a)] != '\n')
    ensures TrimLines(a) == [a[0]] + TrimLines(a[1..]) && TrimLines(a + b) == [a[0]] + TrimLines(a[1..] + b)
  {
    TrimElsewhere(a);
    SpaceRunConcat(u, a, b);
    SumFrom(a, b, 1);
    TrimElsewhere(a + b);
  }

  // ---- A cut stays one through each pass --------------------------------------------------------------------------

  lemma VisiblePasses(u: Unicode, v: char)
    requires u.Faithful() && Visible(u, v)
    ensures RemoveBom([v]) == Newlines([v]) == DropControls(u, [v]) == [v]
    ensures TabsToSpaces([v]) == CollapseSpaces([v]) == TrimLines([v]) == CapBlankLines([v]) == [v]
  {
    assert [v][1..] == [] && v != BOM && v != '\r' && v != '\t' && v != ' ' && v != '\n';
  }

  lemma BomKeepsCut(u: Unicode, a: string, b: string)
    requires u.Faithful() && Cut(u, a, b)
    ensures Cut(u, RemoveBom(a), RemoveBom(b))
  {
    if a != [] && Visible(u, a[|a| - 1]) {
      assert a == a[..|a| - 1] + [a[|a| - 1]];
      VisiblePasses(u, a[|a| - 1]);
      BomConcat(a[..|a| - 1], [a[|a| - 1]]);
    } else {
      assert b == [b[0]] + b[1..];
      VisiblePasses(u, b[0]);
      BomConcat([b[0]], b[1..]);
    }
  }

  lemma NewlinesKeepsCut(u: Unicode, a: string, b: string)
    requires u.Faithful() && Cut(u, a, b)
    ensures Cut(u, Newlines(a), Newlines(b))
  {
    if a != [] && Visible(u, a[|a| - 1]) {
      assert a == a[..|a| - 1] + [a[|a| - 1]];
      VisiblePasses(u, a[|a| - 1]);
      NewlinesConcat(a[..|a| - 1], [a[|a| - 1]]);
    } else {
      assert b == [b[0]] + b[1..];
      VisiblePasses(u, b[0]);
      NewlinesConcat([b[0]], b[1..]);
    }
  }

  lemma DropKeepsCut(u: Unicode, a: string, b: string)
    requires u.Faithful() && Cut(u, a, b)
    ensures Cut(u, DropControls(u, a), DropControls(u, b))
  {
    if a != [] && Visible(u, a[|a| - 1]) {
      assert a == a[..|a| - 1] + [a[|a| - 1]];
      VisiblePasses(u, a[|a| - 1]);
      DropConcat(u, a[..|a| - 1], [a[|a| - 1]]);
    } else {
      assert b == [b[0]] + b[1..];
      VisiblePasses(u, b[0]);
      DropConcat(u, [b[0]], b[1..]);
    }
  }

  lemma TabsKeepsCut(u: Unicode, a: string, b: string)
    requires u.Faithful() && Cut(u, a, b)
    ensures Cut(u, TabsToSpaces(a), TabsToSpaces(b))
  {
    if a != [] && Visible(u, a[|a| - 1]) {
      assert a == a[..|a| - 1] + [a[|a| - 1]];
      VisiblePasses(u, a[|a| - 1]);
      TabsConcat(a[..|a| - 1], [a[|a| - 1]]);
    } else {
      assert b == [b[0]] + b[1..];
      VisiblePasses(u, b[0]);
      TabsConcat([b[0]], b[1..]);
    }
  }

  lemma CollapseKeepsCut(u: Unicode, a: string, b: string)
    requires u.Faithful() && Cut(u, a, b)
    ensures Cut(u, CollapseSpaces(a), CollapseSpaces(b))
  {
    if a != [] && Visible(u, a[|a| - 1]) {
      assert a == a[..|a| - 1] + [a[|a| - 1]];
      VisiblePasses(u, a[|a| - 1]);
      CollapseConcat(a[..|a| - 1], [a[|a| - 1]]);
    } else {
      assert b == [b[0]] + b[1..];
      VisiblePasses(u, b[0]);
      CollapseConcat([b[0]], b[1..]);
    }
  }

  lemma TrimKeepsCut(u: Unicode, a: string, b: string)
    requires u.Faithful() && Cut(u, a, b)
    ensures Cut(u, TrimLines(a), TrimLines(b))
  {
    if a != [] && Visible(u, a[|a| - 1]) {
      assert a == a[..|a| - 1] + [a[|a| - 1]];
      VisiblePasses(u, a[|a| - 1]);
      TrimConcat(u, a[..|a| - 1], [a[|a| - 1]]);
    } else {
      assert b == [b[0]] + b[1..];
      VisiblePasses(u, b[0]);
      TrimConcat(u, [b[0]], b[1..]);
    }
  }

  /** Everything but the final strip. */
  function Passes(u: Unicode, s: string): string {
    CapBlankLines(TrimLines(CollapseSpaces(TabsToSpaces(DropControls(u, Newlines(RemoveBom(s)))))))
  }

  lemma PassesConcat(u: Unicode, a: string, b: string)
    requires u.Faithful() && Cut(u, a, b)
    ensures Passes(u, a + b) == Passes(u, a) + Passes(u, b)
  {
    var a1, b1 := RemoveBom(a), RemoveBom(b);
    BomConcat(a, b);
    BomKeepsCut(u, a, b);
    var a2, b2 := Newlines(a1), Newlines(b1);
    NewlinesConcat(a1, b1);
    NewlinesKeepsCut(u, a1, b1);
    var a3, b3 := DropControls(u, a2), DropControls(u, b2);
    DropConcat(u, a2, b2);
    DropKeepsCut(u, a2, b2);
    var a4, b4 := TabsToSpaces(a3), TabsToSpaces(b3);
    TabsConcat(a3, b3);
    TabsKeepsCut(u, a3, b3);
    var a5, b5 := CollapseSpaces(a4), CollapseSpaces(b4);
    CollapseConcat(a4, b4);
    CollapseKeepsCut(u, a4, b4);
    TrimConcat(u, a5, b5);
    TrimKeepsCut(u, a5, b5);
    CapConcat(TrimLines(a5), TrimLines(b5));
  }

  // ---- Paragraphs ---------------------------------------------------------------------------------------------------

  /** `k` line ends. */
  function Breaks(k: nat): string {
    if k == 0 then [] else "\n" + Breaks(k - 1)
  }

  lemma {:induction false} BreaksPass(u: Unicode, k: nat)
    ensures RemoveBom(Breaks(k)) == Newlines(Breaks(k)) == DropControls(u, Breaks(k)) == Breaks(k)
    ensures TabsToSpaces(Breaks(k)) == CollapseSpaces(Breaks(k)) == TrimLines(Breaks(k)) == Breaks(k)
    ensures k > 0 ==> SpaceRun(Breaks(k)) == 0
  {
    if k > 0 {
      BreaksPass(u, k - 1);
      assert Breaks(k)[1..] == Breaks(k - 1) && Breaks(k - 1)[0..] == Breaks(k - 1);
    }
  }

  lemma {:induction false} BreaksAreCapped(k: nat)
    ensures CapBlankLines(Breaks(k)) == Breaks(if k > 2 then 2 else k)
  {
    if k > 0 {
      BreaksAreCapped(k - 1);
      assert Breaks(k)[1..] == Breaks(k - 1);
      if k > 1 {
        assert Breaks(k - 1)[1..] == Breaks(k - 2);
        if k > 2 {
          assert Breaks(k - 2)[1..] == Breaks(k - 3);
        }
      }
    }
  }

  lemma BreaksPassAll(u: Unicode, k: nat)
    ensures Passes(u, Breaks(k)) == Breaks(if k > 2 then 2 else k)
  {
    BreaksPass(u, k);
    BreaksAreCapped(k);
  }

  /** A text that begins and ends with a visible character, and so does what the passes make of it. */
  predicate Solid(u: Unicode, s: string) {
    s != [] && Visible(u, s[0]) && Visible(u, s[|s| - 1])
  }

  lemma SolidPasses(u: Unicode, s: string)
    requires u.Faithful() && Solid(u, s)
    ensures Solid(u, Passes(u, s)) && NormalizeNarrative(u, s) == Passes(u, s)
  {
    var v, w := s[0], s[|s| - 1];
    VisiblePasses(u, v);
    VisiblePasses(u, w);
    assert s == [v] + s[1..] && s == s[..|s| - 1] + [w];
    PassesConcat(u, [v], s[1..]);
    PassesConcat(u, s[..|s| - 1], [w]);
    var t := Passes(u, s);
    StripPadded([], t, []);
    assert [] + t + [] == t;
  }

  /** Paragraphs are preserved: the pieces on either side of a run of line ends are cleaned apart, one line end stays
      one, and a blank line, or several, become one blank line. */
  lemma ParagraphsAreKept(u: Unicode, p: string, k: nat, q: string)
    requires u.Faithful() && Solid(u, p) && Solid(u, q)
    ensures NormalizeNarrative(u, p + Breaks(k) + q)
            == NormalizeNarrative(u, p) + Breaks(if k > 2 then 2 else k) + NormalizeNarrative(u, q)
    ensures Breaks(0) == "" && Breaks(1) == "\n" && Breaks(2) == "\n\n"
  {
    var s := p + Breaks(k) + q;
    assert Solid(u, s);
    SolidPasses(u, s);
    SolidPasses(u, p);
    SolidPasses(u, q);
    PassesConcat(u, p + Breaks(k), q);
    PassesConcat(u, p, Breaks(k));
    BreaksPassAll(u, k);
    assert Breaks(0) == "" && Breaks(1) == "\n" + Breaks(0) && Breaks(2) == "\n" + Breaks(1);
  }

  /** A text that is clean and stripped is left alone, and only such a text is. */
  lemma CleanIsFixed(u: Unicode, s: string)
    requires u.Faithful()
    ensures NormalizeNarrative(u, s) == s <==> Clean(u, s) && Strip(s) == s
  {
    if Clean(u, s) && Strip(s) == s {
      CharsAreFixed(u, s);
      RunsAreFixed(s);
      LinesAreFixed(s);
    } else if NormalizeNarrative(u, s) == s {
      var t := NormalizedIsClean(u, s);
      StripTwice(t);
    }
  }
}
