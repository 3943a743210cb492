/** Grounding of quotes (`verification.py`): a finding stands only if both of its quotes are found in the
    narrative, up to normalisation. */
module Grounding {
  import opened Text
  import opened Quotes
  import opened Findings

  const MIN_QUOTE_LENGTH := 12

  predicate QuoteIsGrounded(u: Unicode, quote: string, narrative: string) {
    var q := NormalizeQuote(u, quote);
    |q| >= MIN_QUOTE_LENGTH && Within(q, NormalizeQuote(u, narrative))
  }

  predicate IsGrounded(u: Unicode, f: Finding, narrative: string) {
    QuoteIsGrounded(u, f.quoteA, narrative) && QuoteIsGrounded(u, f.quoteB, narrative)
  }

  /** The quote, once normalised, has at least twelve characters and stands somewhere in the normalised narrative. */
  ghost predicate Found(u: Unicode, quote: string, narrative: string) {
    var q, t := NormalizeQuote(u, quote), NormalizeQuote(u, narrative);
    |q| >= 12 && exists i, j :: 0 <= i <= j <= |t| && t[i..j] == q
  }

  /** A finding stands exactly when each of its two quotes is found: one is not enough. */
  lemma BothQuotesAreFound(u: Unicode, f: Finding, narrative: string)
    ensures IsGrounded(u, f, narrative) <==> Found(u, f.quoteA, narrative) && Found(u, f.quoteB, narrative)
  {
    GroundedIsFound(u, f.quoteA, narrative);
    GroundedIsFound(u, f.quoteB, narrative);
  }

  lemma GroundedIsFound(u: Unicode, quote: string, narrative: string)
    ensures QuoteIsGrounded(u, quote, narrative) <==> Found(u, quote, narrative)
  {
    var q, t := NormalizeQuote(u, quote), NormalizeQuote(u, narrative);
    if QuoteIsGrounded(u, quote, narrative) {
      var i :| 0 <= i <= |t| - |q| && WithinAt(q, t, i);
      assert t[i..i + |q|] == q;
    }
    if Found(u, quote, narrative) {
      var i, j :| 0 <= i <= j <= |t| && t[i..j] == q;
      assert WithinAt(q, t, i);
    }
  }

  /** Normalising a contiguous piece of a text gives a contiguous piece of the normalised text. */
  lemma SliceStaysWithin(u: Unicode, a: string, m: string, b: string)
    requires u.Faithful()
    ensures Within(NormalizeQuote(u, m), NormalizeQuote(u, a + m + b))
  {
    PassesComputeCanon(u, m);
    PassesComputeCanon(u, a + m + b);
    FoldConcat(u, a + m, b);
    FoldConcat(u, a, m);
    CanonSlice(Fold(u, a), Fold(u, m), Fold(u, b));
  }

  lemma CanonSlice(a: string, m: string, b: string)
    ensures Within(Canon(m), Canon(a + m + b))
  {
    CanonConcat(a, m);
    CanonConcat(a + m, b);
    MiddleIsWithin(Canon(a), Joint(a, Canon(a), m, Canon(m)), Canon(m), Joint(a + m, Canon(a + m), b, Canon(b)),
                   Canon(b));
  }

  lemma MiddleIsWithin(a: string, i: string, m: string, j: string, b: string)
    ensures Within(m, a + i + m + j + b)
  {
    WithinConcat(a + i, m, j + b);
    assert a + i + m + (j + b) == a + i + m + j + b;
  }

  /** A literal excerpt is grounded exactly when its normal form has at least twelve characters. */
  lemma LiteralExcerptIsGrounded(u: Unicode, narrative: string, i: nat, j: nat)
    requires u.Faithful() && i <= j <= |narrative|
    ensures QuoteIsGrounded(u, narrative[i..j], narrative)
            <==> |NormalizeQuote(u, narrative[i..j])| >= MIN_QUOTE_LENGTH
  {
    assert narrative == narrative[..i] + narrative[i..j] + narrative[j..];
    SliceStaysWithin(u, narrative[..i], narrative[i..j], narrative[j..]);
  }

  /** Context around a narrative never un-grounds a quote. */
  lemma GroundingIsMonotone(u: Unicode, quote: string, a: string, narrative: string, b: string)
    requires u.Faithful() && QuoteIsGrounded(u, quote, narrative)
    ensures QuoteIsGrounded(u, quote, a + narrative + b)
  {
    SliceStaysWithin(u, a, narrative, b);
    WithinTransitive(NormalizeQuote(u, quote), NormalizeQuote(u, narrative),
                     NormalizeQuote(u, a + narrative + b));
  }

  lemma LettersWithin(a: string, b: string)
    requires Within(a, b)
    ensures Within(Letters(a), Letters(b))
  {
    var i :| 0 <= i <= |b| - |a| && WithinAt(a, b, i);
    assert b == b[..i] + a + b[i + |a|..];
    LettersConcat(b[..i] + a, b[i + |a|..]);
    LettersConcat(b[..i], a);
    WithinConcat(Letters(b[..i]), Letters(a), Letters(b[i + |a|..]));
  }

  /** Soundness: what is accepted spells out letters and digits the narrative really contains, in the
      same order and without interruption. */
  lemma GroundedQuoteIsInTheText(u: Unicode, quote: string, narrative: string)
    requires u.Faithful() && QuoteIsGrounded(u, quote, narrative)
    ensures Within(Letters(Fold(u, quote)), Letters(Fold(u, narrative)))
  {
    LettersWithin(NormalizeQuote(u, quote), NormalizeQuote(u, narrative));
    PassesComputeCanon(u, quote);
    PassesComputeCanon(u, narrative);
    CanonKeepsLetters(Fold(u, quote));
    CanonKeepsLetters(Fold(u, narrative));
  }

  function Verdict(u: Unicode, narrative: string): Finding -> bool {
    f => IsGrounded(u, f, narrative)
  }

  /** The elements on which `p` answers `g`, in order. */
  ghost function Select<T>(p: T -> bool, s: seq<T>, g: bool): seq<T> {
    if s == [] then []
    else Select(p, s[..|s| - 1], g) + if p(s[|s| - 1]) == g then [s[|s| - 1]] else []
  }

  lemma SplitSnoc<T>(a: seq<T>, b: seq<T>, r: seq<T>, x: T)
    requires multiset(a) + multiset(b) == multiset(r)
    ensures multiset(a + [x]) + multiset(b + []) == multiset(r + [x])
    ensures multiset(a + []) + multiset(b + [x]) == multiset(r + [x])
  {
    assert a + [] == a && b + [] == b;
  }

  lemma SelectSnoc<T>(p: T -> bool, r: seq<T>, x: T, g: bool)
    ensures Select(p, r + [x], g) == Select(p, r, g) + if p(x) == g then [x] else []
  {
    assert (r + [x])[..|r|] == r;
  }

  lemma {:induction false} SelectSplits<T>(p: T -> bool, s: seq<T>)
    ensures multiset(Select(p, s, true)) + multiset(Select(p, s, false)) == multiset(s)
  {
    if s != [] {
      var r, x := s[..|s| - 1], s[|s| - 1];
      SelectSplits(p, r);
      assert s == r + [x];
      SelectSnoc(p, r, x, true);
      SelectSnoc(p, r, x, false);
      SplitSnoc(Select(p, r, true), Select(p, r, false), r, x);
    }
  }

  lemma {:induction false} SelectAnswers<T>(p: T -> bool, s: seq<T>, g: bool)
    ensures forall x | x in Select(p, s, g) :: x in s && p(x) == g
  {
    if s != [] {
      SelectAnswers(p, s[..|s| - 1], g);
    }
  }

  /** Nothing disappears silently: every finding is either kept or reported as dropped, in order. */
  method KeepGrounded(u: Unicode, findings: seq<Finding>, narrative: string)
    returns (kept: seq<Finding>, dropped: seq<Finding>)
    ensures kept == Select(Verdict(u, narrative), findings, true)
    ensures dropped == Select(Verdict(u, narrative), findings, false)
    ensures multiset(kept) + multiset(dropped) == multiset(findings)
    ensures forall f | f in kept :: Found(u, f.quoteA, narrative) && Found(u, f.quoteB, narrative)
    ensures forall f | f in dropped :: !Found(u, f.quoteA, narrative) || !Found(u, f.quoteB, narrative)
  {
    ghost var p := Verdict(u, narrative);
    kept, dropped := [], [];
    for n := 0 to |findings|
      invariant kept == Select(p, findings[..n], true)
      invariant dropped == Select(p, findings[..n], false)
    {
      assert findings[..n + 1][..n] == findings[..n];
      if IsGrounded(u, findings[n], narrative) {
        kept := kept + [findings[n]];
      } else {
        dropped := dropped + [findings[n]];
      }
    }
    assert findings[..|findings|] == findings;
    SelectSplits(p, findings);
    SelectAnswers(p, findings, true);
    SelectAnswers(p, findings, false);
    forall f
      ensures p(f) <==> Found(u, f.quoteA, narrative) && Found(u, f.quoteB, narrative)
    {
      BothQuotesAreFound(u, f, narrative);
    }
  }
}
