/** The deterministic end of a dossier's analysis (`service.py`): collect the findings of the passes that
    succeeded, keep the grounded ones, deduplicate. */
module Analysis {
  import opened Text
  import opened Quotes
  import opened Findings
  import opened Grounding
  import opened Clustering
  import opened Dedup

  function QuoteNormalizer(u: Unicode): Normalizer {
    t => NormalizeQuote(u, t)
  }

  datatype PassOutput = Failed | Parsed(findings: seq<Finding>)

  datatype DossierAnalysis = DossierAnalysis(findings: seq<Finding>, dropped: nat, failedPasses: nat, error: bool)

  function Collected(outputs: seq<PassOutput>): seq<Finding> {
    if outputs == [] then []
    else
      var o := outputs[|outputs| - 1];
      Collected(outputs[..|outputs| - 1]) + if o.Parsed? then o.findings else []
  }

  function FailedCount(outputs: seq<PassOutput>): (n: nat)
    ensures n <= |outputs|
  {
    if outputs == [] then 0
    else FailedCount(outputs[..|outputs| - 1]) + if outputs[|outputs| - 1].Failed? then 1 else 0
  }

  /** The findings of one pass after another, none for a pass that failed. */
  lemma {:induction false} CollectedConcat(a: seq<PassOutput>, b: seq<PassOutput>)
    ensures Collected(a + b) == Collected(a) + Collected(b)
  {
    if b == [] {
      assert a + b == a;
    } else {
      var n := |b| - 1;
      CollectedConcat(a, b[..n]);
      assert (a + b)[..|a| + n] == a + b[..n] && (a + b)[|a| + n] == b[n];
      Regroup(Collected(a), Collected(b[..n]), if b[n].Parsed? then b[n].findings else []);
    }
  }

  lemma CollectedOne(fs: seq<Finding>)
    ensures Collected([Parsed(fs)]) == fs && Collected([Failed]) == [] && Collected([]) == []
  {
    assert [Parsed(fs)][..0] == [] && [Failed][..0] == [];
  }

  ghost function FailedAt(outputs: seq<PassOutput>): set<int> {
    set i | 0 <= i < |outputs| && outputs[i].Failed?
  }

  lemma {:induction false} FailedPasses(outputs: seq<PassOutput>)
    ensures FailedCount(outputs) == |FailedAt(outputs)|
  {
    if outputs != [] {
      var n := |outputs| - 1;
      FailedPasses(outputs[..n]);
      assert FailedAt(outputs) == if outputs[n].Failed? then FailedAt(outputs[..n]) + {n} else FailedAt(outputs[..n]);
    }
  }

  lemma {:induction false} AllFailed(outputs: seq<PassOutput>)
    ensures FailedCount(outputs) == |outputs| <==> forall i | 0 <= i < |outputs| :: outputs[i] == Failed
  {
    if outputs != [] {
      AllFailed(outputs[..|outputs| - 1]);
    }
  }

  lemma {:induction false} CollectedMembers(outputs: seq<PassOutput>)
    ensures forall f :: f in Collected(outputs) <==> exists o :: o in outputs && o.Parsed? && f in o.findings
  {
    if outputs != [] {
      var n := |outputs| - 1;
      CollectedMembers(outputs[..n]);
      assert outputs == outputs[..n] + [outputs[n]];
    }
  }

  /** Only the failure of every pass is an error; otherwise each collected finding is either dropped or
      goes to deduplication, and what is reported is found in the narrative. */
  method Analyze(u: Unicode, outputs: seq<PassOutput>, narrative: string) returns (a: DossierAnalysis)
    ensures a.failedPasses == FailedCount(outputs)
    ensures a.error <==> FailedCount(outputs) == |outputs|
    ensures a.error <==> forall i | 0 <= i < |outputs| :: outputs[i] == Failed
    ensures a.failedPasses == |FailedAt(outputs)|
    ensures a.error ==> a.findings == [] && a.dropped == 0
    ensures forall o | o in a.findings :: Found(u, o.quoteA, narrative) && Found(u, o.quoteB, narrative)
    ensures forall o | o in a.findings ::
              exists p, f :: p in outputs && p.Parsed? && f in p.findings && SameQuotes(o, f)
    ensures !a.error ==>
              var kept := Select(Verdict(u, narrative), Collected(outputs), true);
              a.findings == Deduplicated(QuoteNormalizer(u), kept) && a.dropped + |kept| == |Collected(outputs)|
  {
    var failed := FailedCount(outputs);
    FailedPasses(outputs);
    AllFailed(outputs);
    if failed == |outputs| {
      return DossierAnalysis([], 0, failed, true);
    }
    var parsed: seq<Finding> := [];
    for n := 0 to |outputs|
      invariant parsed == Collected(outputs[..n])
    {
      assert outputs[..n + 1][..n] == outputs[..n];
      if outputs[n].Parsed? {
        parsed := parsed + outputs[n].findings;
      }
    }
    assert outputs[..|outputs|] == outputs;
    var grounded, dropped := KeepGrounded(u, parsed, narrative);
    assert |multiset(grounded) + multiset(dropped)| == |multiset(parsed)|;
    var findings := Deduplicate(QuoteNormalizer(u), grounded);
    a := DossierAnalysis(findings, |dropped|, failed, false);
    ReportedIsGrounded(u, parsed, narrative);
    ReportedComesFromAPass(u, outputs, narrative);
  }

  /** Whatever the model answers, both quotes of every reported finding are found in the narrative. */
  lemma ReportedIsGrounded(u: Unicode, parsed: seq<Finding>, narrative: string)
    ensures var kept := Select(Verdict(u, narrative), parsed, true);
            forall o | o in Deduplicated(QuoteNormalizer(u), kept) ::
              Found(u, o.quoteA, narrative) && Found(u, o.quoteB, narrative)
  {
    var kept := Select(Verdict(u, narrative), parsed, true);
    var same := Similar(QuoteNormalizer(u));
    var cs := Clusters(same, kept);
    SelectAnswers(Verdict(u, narrative), parsed, true);
    ClustersAreNonempty(same, kept);
    MembersAreInputs(same, kept);
    forall i | 0 <= i < |cs|
      ensures Found(u, MergeAll(cs)[i].quoteA, narrative) && Found(u, MergeAll(cs)[i].quoteB, narrative)
    {
      var m := MergedMember(QuoteNormalizer(u), cs, i);
      assert cs[i][m] in cs[i];
      assert Verdict(u, narrative)(cs[i][m]);
      BothQuotesAreFound(u, cs[i][m], narrative);
    }
  }

  /** Nothing is invented after the model: every reported finding quotes one that a pass returned. */
  lemma ReportedComesFromAPass(u: Unicode, outputs: seq<PassOutput>, narrative: string)
    ensures var kept := Select(Verdict(u, narrative), Collected(outputs), true);
            forall o | o in Deduplicated(QuoteNormalizer(u), kept) ::
              exists p, f :: p in outputs && p.Parsed? && f in p.findings && SameQuotes(o, f)
  {
    var kept := Select(Verdict(u, narrative), Collected(outputs), true);
    var same := Similar(QuoteNormalizer(u));
    var cs := Clusters(same, kept);
    SelectAnswers(Verdict(u, narrative), Collected(outputs), true);
    CollectedMembers(outputs);
    ClustersAreNonempty(same, kept);
    MembersAreInputs(same, kept);
    forall i | 0 <= i < |cs|
      ensures exists p, f :: p in outputs && p.Parsed? && f in p.findings && SameQuotes(MergeAll(cs)[i], f)
    {
      var m := MergedMember(QuoteNormalizer(u), cs, i);
      assert cs[i][m] in cs[i] && cs[i][m] in Collected(outputs);
    }
  }

  lemma PlainWordIsNormal(u: Unicode, w: string)
    requires u.Faithful() && w != [] && forall i | 0 <= i < |w| :: IsAlnum(w[i])
    ensures NormalizeQuote(u, w) == w
  {
    PassesComputeCanon(u, w);
    FoldFixes(u, w);
    CanonicalIsFixed(w);
  }

  /** Plain words that follow one another in a plain text are grounded in it. */
  lemma PlainPieceIsGrounded(u: Unicode, a: string, m: string, b: string)
    requires u.Faithful() && |m| >= MIN_QUOTE_LENGTH
    requires forall i | 0 <= i < |a + m + b| :: IsAlnum((a + m + b)[i])
    ensures QuoteIsGrounded(u, m, a + m + b)
  {
    forall i | 0 <= i < |m|
      ensures IsAlnum(m[i])
    {
      assert (a + m + b)[|a| + i] == m[i];
    }
    PlainWordIsNormal(u, m);
    PlainWordIsNormal(u, a + m + b);
    WithinConcat(a, m, b);
  }

  lemma NormalizerFixesPlainWords(u: Unicode)
    requires u.Faithful()
    ensures FixesPlainWords(QuoteNormalizer(u))
  {
    forall w: string | w != [] && (forall i | 0 <= i < |w| :: IsAlnum(w[i]))
      ensures QuoteNormalizer(u)(w) == w
    {
      PlainWordIsNormal(u, w);
    }
  }

  /** The promise of one finding for each pair of quotes fails for a whole analysis: every quote is in the
      narrative, all four findings are kept, and the two that are reported quote the same pair. */
  lemma PromiseOfUniquenessFails(u: Unicode) returns (parsed: seq<Finding>, narrative: string)
    requires u.Faithful()
    ensures var kept := Select(Verdict(u, narrative), parsed, true);
            var out := Deduplicated(QuoteNormalizer(u), kept);
            kept == parsed && |out| == 2 && SameQuotes(out[0], out[1])
  {
    NormalizerFixesPlainWords(u);
    var p, x, y, q := Truncations(QuoteNormalizer(u), MIN_QUOTE_LENGTH);
    narrative := x + y + q;
    parsed := TwiceReported(QuoteNormalizer(u), p, x, y, q);
    PiecesAreKept(u, parsed, p, x, y, q);
  }

  lemma PiecesAreKept(u: Unicode, parsed: seq<Finding>, p: string, x: string, y: string, q: string)
    requires u.Faithful() && x == p + "b" && y == p + "c"
    requires |q| == MIN_QUOTE_LENGTH && forall i | 0 <= i < |q| :: q[i] == 'd'
    requires |p| == MIN_PREFIX_LENGTH && forall i | 0 <= i < |p| :: p[i] == 'a'
    requires forall f | f in parsed :: f.quoteA in {p, x, y} && f.quoteB == q
    ensures Select(Verdict(u, x + y + q), parsed, true) == parsed
  {
    PiecesAreGrounded(u, p, x, y, q);
    forall f | f in parsed
      ensures Verdict(u, x + y + q)(f)
    {
      assert f.quoteA in {p, x, y, q} && f.quoteB in {p, x, y, q};
    }
    SelectAll(Verdict(u, x + y + q), parsed);
  }

  lemma PiecesAreGrounded(u: Unicode, p: string, x: string, y: string, q: string)
    requires u.Faithful() && x == p + "b" && y == p + "c"
    requires |q| == MIN_QUOTE_LENGTH && forall i | 0 <= i < |q| :: q[i] == 'd'
    requires |p| == MIN_PREFIX_LENGTH && forall i | 0 <= i < |p| :: p[i] == 'a'
    ensures forall m | m in {p, x, y, q} :: QuoteIsGrounded(u, m, x + y + q)
  {
    var narrative := x + y + q;
    assert [] + p + ("b" + y + q) == narrative;
    assert [] + x + (y + q) == narrative;
    assert x + y + q == narrative;
    assert (x + y) + q + [] == narrative;
    PlainPieceIsGrounded(u, [], p, "b" + y + q);
    PlainPieceIsGrounded(u, [], x, y + q);
    PlainPieceIsGrounded(u, x, y, q);
    PlainPieceIsGrounded(u, x + y, q, []);
  }

  lemma {:induction false} SelectAll<T>(v: T -> bool, s: seq<T>)
    requires forall x | x in s :: v(x)
    ensures Select(v, s, true) == s
  {
    if s != [] {
      var r := s[..|s| - 1];
      assert s == r + [s[|s| - 1]];
      SelectAll(v, r);
      assert s[|s| - 1] in s;
    }
  }
}
