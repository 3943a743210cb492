/** Quote normalisation (`normalize_quote`): five textual passes, and the one-pass description of what
    they compute together. */
module Quotes {
  import opened Text

  /** `re.sub("[p]+", " ", s)`: every maximal run of characters satisfying `p` becomes one space. */
  function ReplaceRuns(p: char -> bool, s: string): string {
    if s == [] then []
    else
      var rest := ReplaceRuns(p, s[..|s| - 1]);
      if !p(s[|s| - 1]) then rest + [s[|s| - 1]]
      else if |s| > 1 && p(s[|s| - 2]) then rest
      else rest + " "
  }

  /** `(?<=\d) (?=\d)`: a space standing between two digits. */
  predicate Gluing(s: string, i: nat) {
    1 <= i < |s| - 1 && s[i] == ' ' && IsDigit(s[i - 1]) && IsDigit(s[i + 1])
  }

  /** The first `n` characters of `s`, without the spaces standing between two digits of `s`. */
  function GlueUpTo(s: string, n: nat): string
    requires n <= |s|
  {
    if n == 0 then []
    else GlueUpTo(s, n - 1) + if Gluing(s, n - 1) then [] else [s[n - 1]]
  }

  function Glue(s: string): string {
    GlueUpTo(s, |s|)
  }

  /** The two substitutions, applied to folded text. */
  function Spaced(f: string): string {
    ReplaceRuns(IsSpace, ReplaceRuns(IsOther, f))
  }

  function NormalizeQuote(u: Unicode, text: string): string {
    Glue(Strip(Spaced(Fold(u, Strip(text)))))
  }

  // ---- The one-pass form -----------------------------------------------------------------------

  /** The text emitted before `c`, when `before` has been read and `w` emitted for it. */
  function Gap(before: string, w: string, c: char): string {
    if before == [] || w == [] || IsAlnum(before[|before| - 1]) then ""
    else if IsDigit(w[|w| - 1]) && IsDigit(c) then ""
    else " "
  }

  /** Letters and digits are copied; what stands between two of them is one space, or nothing between
      two digits. */
  function Canon(f: string): string {
    if f == [] then []
    else
      var before, c := f[..|f| - 1], f[|f| - 1];
      var w := Canon(before);
      if IsAlnum(c) then w + Gap(before, w, c) + [c] else w
  }

  /** The same without digit gluing: what `Strip(Spaced(f))` holds. */
  function Words(f: string): string {
    if f == [] then []
    else
      var before, c := f[..|f| - 1], f[|f| - 1];
      var w := Words(before);
      if !IsAlnum(c) then w
      else if w == [] || IsAlnum(before[|before| - 1]) then w + [c]
      else w + " " + [c]
  }

  lemma {:induction false} WordsEnds(f: string)
    requires Words(f) != []
    ensures IsAlnum(Words(f)[0]) && IsAlnum(Words(f)[|Words(f)| - 1])
  {
    if Words(f[..|f| - 1]) != [] {
      WordsEnds(f[..|f| - 1]);
    }
  }

  ghost predicate EndsIn(s: string, c: char) {
    s != [] && s[|s| - 1] == c
  }

  lemma {:induction false} RunsEnd(p: char -> bool, s: string)
    ensures s != [] ==> EndsIn(ReplaceRuns(p, s), if p(s[|s| - 1]) then ' ' else s[|s| - 1])
  {
    if s != [] {
      var r, c := s[..|s| - 1], s[|s| - 1];
      assert s == r + [c];
      RunsEnd(p, r);
    }
  }

  /** How the two substitutions grow with the text: a non-alphanumeric adds a space unless the text so
      far already ends with one. */
  lemma SpacedSnoc(f: string, c: char)
    ensures var b := Spaced(f);
            Spaced(f + [c]) == if IsAlnum(c) then b + [c] else if EndsIn(b, ' ') then b else b + " "
  {
    var o := ReplaceRuns(IsOther, f);
    RunsEnd(IsOther, f);
    RunsEnd(IsSpace, o);
  }

  /** The words with their outer spaces. */
  function Padded(f: string, w: string): string {
    (if f != [] && !IsAlnum(f[0]) then " " else "") + w
    + (if w != [] && f != [] && !IsAlnum(f[|f| - 1]) then " " else "")
  }

  lemma PaddedSnoc(g: string, w: string, c: char)
    requires w != [] ==> g != [] && IsAlnum(w[0]) && IsAlnum(w[|w| - 1])
    requires w == [] <==> Blank(g)
    ensures var b, f := Padded(g, w), g + [c];
            var w' := if !IsAlnum(c) then w
                      else if w == [] || IsAlnum(g[|g| - 1]) then w + [c] else w + " " + [c];
            Padded(f, w') == if IsAlnum(c) then b + [c] else if EndsIn(b, ' ') then b else b + " "
  {
    var f := g + [c];
    if g == [] {
      assert f == [c] && w == [];
    } else {
      assert f[0] == g[0];
    }
  }

  lemma {:induction false} WordsBlank(f: string)
    ensures Words(f) == [] <==> Blank(f)
  {
    if f != [] {
      WordsBlank(f[..|f| - 1]);
      assert f == f[..|f| - 1] + [f[|f| - 1]];
    }
  }

  /** The substitutions leave the words, with at most one space on each side. */
  lemma {:induction false} SpacedIsWords(f: string)
    ensures Spaced(f) == Padded(f, Words(f))
  {
    if f != [] {
      var g, c := f[..|f| - 1], f[|f| - 1];
      assert f == g + [c];
      SpacedIsWords(g);
      SpacedSnoc(g, c);
      WordsBlank(g);
      if Words(g) != [] {
        WordsEnds(g);
      }
      PaddedSnoc(g, Words(g), c);
    }
  }

  lemma StripSpaced(f: string)
    ensures Strip(Spaced(f)) == Words(f)
  {
    SpacedIsWords(f);
    if Words(f) != [] {
      WordsEnds(f);
    }
    StripPadded(if f != [] && !IsAlnum(f[0]) then " " else "", Words(f),
                if Words(f) != [] && !IsAlnum(f[|f| - 1]) then " " else "");
  }

  lemma {:induction false} GluePrefix(s: string, t: string, n: nat)
    requires n < |s|
    ensures GlueUpTo(s + t, n) == GlueUpTo(s, n)
  {
    if n > 0 {
      GluePrefix(s, t, n - 1);
      assert (s + t)[n] == s[n] && (s + t)[n - 1] == s[n - 1];
      assert n >= 2 ==> (s + t)[n - 2] == s[n - 2];
    }
  }

  /** A text ending in a letter or digit is glued as it would be alone, whatever follows it. */
  lemma GlueHead(s: string, t: string)
    requires s != [] && IsAlnum(s[|s| - 1])
    ensures GlueUpTo(s + t, |s|) == Glue(s)
  {
    GluePrefix(s, t, |s| - 1);
    assert (s + t)[|s| - 1] == s[|s| - 1];
  }

  lemma GlueSnoc(s: string, c: char)
    requires IsAlnum(c) && (s != [] ==> IsAlnum(s[|s| - 1]))
    ensures Glue(s + [c]) == Glue(s) + [c]
  {
    if s != [] {
      GlueHead(s, [c]);
    }
    assert Glue(s + [c]) == GlueUpTo(s + [c], |s|) + [(s + [c])[|s|]];
  }

  lemma GlueGap(s: string, c: char)
    requires IsAlnum(c) && s != [] && IsAlnum(s[|s| - 1])
    ensures Glue(s + " " + [c]) == Glue(s) + (if IsDigit(s[|s| - 1]) && IsDigit(c) then "" else " ") + [c]
  {
    var t := s + " " + [c];
    assert t == s + (" " + [c]);
    GlueHead(s, " " + [c]);
    assert t[|s| - 1] == s[|s| - 1] && t[|s|] == ' ' && t[|s| + 1] == c;
    assert GlueUpTo(t, |s| + 1) == Glue(s) + if Gluing(t, |s|) then [] else [' '];
    assert !Gluing(t, |s| + 1);
  }

  lemma {:induction false} CanonIsGluedWords(f: string)
    ensures Canon(f) == Glue(Words(f))
    ensures (Canon(f) == []) == (Words(f) == [])
    ensures Words(f) != [] ==> Canon(f)[|Canon(f)| - 1] == Words(f)[|Words(f)| - 1]
  {
    if f != [] {
      var g, c := f[..|f| - 1], f[|f| - 1];
      CanonIsGluedWords(g);
      if IsAlnum(c) {
        var w := Words(g);
        if w == [] || IsAlnum(g[|g| - 1]) {
          if w != [] {
            WordsEnds(g);
          }
          GlueSnoc(w, c);
        } else {
          WordsEnds(g);
          GlueGap(w, c);
        }
      }
    }
  }

  // ---- Concatenation ---------------------------------------------------------------------------

  /** What joins the normal forms `l` and `r` of two adjacent pieces of folded text `p` and `q`. */
  function Joint(p: string, l: string, q: string, r: string): string {
    if l == [] || r == [] || p == [] || q == [] then ""
    else if IsAlnum(p[|p| - 1]) && IsAlnum(q[0]) then ""
    else if IsDigit(l[|l| - 1]) && IsDigit(r[0]) then ""
    else " "
  }

  lemma {:induction false} CanonBlank(f: string)
    ensures Canon(f) == [] <==> Blank(f)
  {
    if f != [] {
      CanonBlank(f[..|f| - 1]);
      assert f == f[..|f| - 1] + [f[|f| - 1]];
    }
  }

  lemma CanonConcatStep(p: string, q: string, c: char)
    requires Canon(p + q) == Canon(p) + Joint(p, Canon(p), q, Canon(q)) + Canon(q)
    ensures Canon(p + (q + [c])) == Canon(p) + Joint(p, Canon(p), q + [c], Canon(q + [c])) + Canon(q + [c])
  {
    CanonBlank(q);
    CanonSnocAll(p, q, c);
    if IsAlnum(c) {
      JointSnoc(p, Canon(p), q, Canon(q), Canon(p + q), c);
    } else {
      JointSkips(p, Canon(p), q, Canon(q), c);
    }
  }

  /** Normalisation is a homomorphism up to one separator. */
  lemma {:induction false} CanonConcat(p: string, q: string)
    ensures Canon(p + q) == Canon(p) + Joint(p, Canon(p), q, Canon(q)) + Canon(q)
  {
    if q == [] {
      assert p + q == p;
    } else {
      CanonConcat(p, q[..|q| - 1]);
      CanonConcatStep(p, q[..|q| - 1], q[|q| - 1]);
      assert q == q[..|q| - 1] + [q[|q| - 1]];
    }
  }

  lemma CanonSnocAll(p: string, q: string, c: char)
    ensures var f := p + q;
            Canon(p + (q + [c])) == if IsAlnum(c) then Canon(f) + Gap(f, Canon(f), c) + [c] else Canon(f)
    ensures Canon(q + [c]) == if IsAlnum(c) then Canon(q) + Gap(q, Canon(q), c) + [c] else Canon(q)
  {
    assert p + (q + [c]) == (p + q) + [c];
  }

  /** One more letter or digit, on both sides of the concatenation equation. */
  lemma JointSnoc(p: string, l: string, q: string, r: string, w: string, c: char)
    requires w == l + Joint(p, l, q, r) + r
    requires p == [] ==> l == []
    requires r == [] <==> Blank(q)
    requires IsAlnum(c)
    ensures var r' := r + Gap(q, r, c) + [c];
            w + Gap(p + q, w, c) + [c] == l + Joint(p, l, q + [c], r') + r'
  {
    var g := Gap(q, r, c);
    var r' := r + g + [c];
    if r == [] {
      FirstLetter(p, l, q, c);
      assert r' == [c] && w == l;
    } else {
      LaterLetter(p, l, q, r, w, c);
      Reassociate(l, Joint(p, l, q, r), r, g, [c]);
    }
  }

  lemma JointSkips(p: string, l: string, q: string, r: string, c: char)
    requires r == [] <==> Blank(q)
    ensures Joint(p, l, q + [c], r) == Joint(p, l, q, r)
  {
    if r != [] {
      assert (q + [c])[0] == q[0];
    }
  }

  lemma Reassociate(l: string, j: string, r: string, g: string, t: string)
    ensures l + j + r + g + t == l + j + (r + g + t)
  {
  }

  lemma FirstLetter(p: string, l: string, q: string, c: char)
    requires (p == [] ==> l == []) && Blank(q)
    ensures Gap(q, [], c) == "" && (IsAlnum(c) ==> Gap(p + q, l, c) == Joint(p, l, q + [c], [c]))
  {
    if q == [] {
      assert p + q == p && q + [c] == [c];
    } else {
      assert (p + q)[|p + q| - 1] == q[|q| - 1] && (q + [c])[0] == q[0];
    }
  }

  lemma LaterLetter(p: string, l: string, q: string, r: string, w: string, c: char)
    requires w == l + Joint(p, l, q, r) + r && r != [] && q != []
    ensures Joint(p, l, q + [c], r) == Joint(p, l, q, r)
    ensures Gap(p + q, w, c) == Gap(q, r, c)
    ensures Joint(p, l, q + [c], r + Gap(q, r, c) + [c]) == Joint(p, l, q, r)
  {
    assert (p + q)[|p + q| - 1] == q[|q| - 1] && (q + [c])[0] == q[0];
    assert w[|w| - 1] == r[|r| - 1];
    var r' := r + Gap(q, r, c) + [c];
    assert r'[0] == r[0];
    assert q + [c] != [] && Joint(p, l, q + [c], r') == Joint(p, l, q + [c], r);
  }

  /** Blank text on either side leaves the normal form alone. */
  lemma CanonPadded(a: string, f: string, b: string)
    requires Blank(a) && Blank(b)
    ensures Canon(a + f + b) == Canon(f)
  {
    CanonBlank(a);
    CanonBlank(b);
    CanonConcat(a, f);
    CanonConcat(a + f, b);
  }

  /** The five passes compute exactly the one-pass form, the leading `strip` included. */
  lemma PassesComputeCanon(u: Unicode, text: string)
    requires u.Faithful()
    ensures NormalizeQuote(u, text) == Canon(Fold(u, text))
  {
    var a, b := StripSplit(text);
    var t := Strip(text);
    assert Fold(u, text) == Fold(u, a) + Fold(u, t) + Fold(u, b) by {
      FoldConcat(u, a + t, b);
      FoldConcat(u, a, t);
    }
    FoldBlank(u, a);
    FoldBlank(u, b);
    CanonPadded(Fold(u, a), Fold(u, t), Fold(u, b));
    StripSpaced(Fold(u, t));
    CanonIsGluedWords(Fold(u, t));
  }

  // ---- Canonical forms -------------------------------------------------------------------------

  /** Alphabet `[a-z0-9 ]`, no leading space, no double space, no space between two digits. */
  ghost predicate IsSpaced(w: string) {
    && (forall i | 0 <= i < |w| :: IsAlnum(w[i]) || w[i] == ' ')
    && (w != [] ==> w[0] != ' ')
    && (forall i | 1 <= i < |w| - 1 && w[i] == ' ' ::
          w[i + 1] != ' ' && !(IsDigit(w[i - 1]) && IsDigit(w[i + 1])))
  }

  ghost predicate IsCanonical(w: string) {
    IsSpaced(w) && (w != [] ==> w[|w| - 1] != ' ')
  }

  lemma CanonicalSnoc(w: string, gap: string, c: char)
    requires IsCanonical(w) && IsAlnum(c)
    requires gap == "" || (gap == " " && w != [] && !(IsDigit(w[|w| - 1]) && IsDigit(c)))
    ensures IsCanonical(w + gap + [c])
  {
    var v := w + gap + [c];
    assert forall i | 0 <= i < |w| :: v[i] == w[i];
  }

  lemma {:induction false} CanonIsCanonical(f: string)
    ensures IsCanonical(Canon(f))
  {
    if f != [] {
      var g, c := f[..|f| - 1], f[|f| - 1];
      CanonIsCanonical(g);
      if IsAlnum(c) {
        CanonicalSnoc(Canon(g), Gap(g, Canon(g), c), c);
      }
    }
  }

  lemma {:induction false} CanonicalIsFixed(w: string)
    requires IsSpaced(w)
    ensures Canon(w) == if w != [] && w[|w| - 1] == ' ' then w[..|w| - 1] else w
  {
    if w != [] {
      var v, c := w[..|w| - 1], w[|w| - 1];
      assert forall i | 0 <= i < |v| :: v[i] == w[i];
      CanonicalIsFixed(v);
      var x := Canon(v);
      assert Canon(w) == if IsAlnum(c) then x + Gap(v, x, c) + [c] else x;
      SpacedSplit(w, x);
    }
  }

  lemma SpacedSplit(w: string, x: string)
    requires IsSpaced(w) && w != []
    requires var v := w[..|w| - 1]; x == if v != [] && v[|v| - 1] == ' ' then v[..|v| - 1] else v
    ensures var v, c := w[..|w| - 1], w[|w| - 1];
            if c == ' ' then x == v else w == x + Gap(v, x, c) + [c]
  {
    var v, c := w[..|w| - 1], w[|w| - 1];
    if v != [] && v[|v| - 1] == ' ' {
      assert w[|w| - 2] == ' ' && |w| >= 3 && x[|x| - 1] == w[|w| - 3];
    }
  }

  lemma {:induction false} FoldFixes(u: Unicode, w: string)
    requires u.Faithful()
    requires forall i | 0 <= i < |w| :: IsAlnum(w[i]) || w[i] == ' '
    ensures Fold(u, w) == w
  {
    if w != [] {
      FoldFixes(u, w[1..]);
    }
  }

  /** The outputs of the normaliser are exactly the canonical strings. */
  lemma NormalFormsAreCanonical(u: Unicode, w: string)
    requires u.Faithful()
    ensures (exists t :: NormalizeQuote(u, t) == w) <==> IsCanonical(w)
  {
    forall t
      ensures IsCanonical(NormalizeQuote(u, t))
    {
      PassesComputeCanon(u, t);
      CanonIsCanonical(Fold(u, t));
    }
    if IsCanonical(w) {
      PassesComputeCanon(u, w);
      FoldFixes(u, w);
      CanonicalIsFixed(w);
      assert NormalizeQuote(u, w) == w;
    }
  }

  lemma NormalizeIdempotent(u: Unicode, t: string)
    requires u.Faithful()
    ensures NormalizeQuote(u, NormalizeQuote(u, t)) == NormalizeQuote(u, t)
  {
    var w := NormalizeQuote(u, t);
    PassesComputeCanon(u, t);
    CanonIsCanonical(Fold(u, t));
    PassesComputeCanon(u, w);
    FoldFixes(u, w);
    CanonicalIsFixed(w);
  }

  /** No letter or digit is lost, added or moved. */
  lemma {:induction false} CanonKeepsLetters(f: string)
    ensures Letters(Canon(f)) == Letters(f)
  {
    if f != [] {
      var g, c := f[..|f| - 1], f[|f| - 1];
      assert f == g + [c];
      CanonKeepsLetters(g);
      LettersConcat(g, [c]);
      if IsAlnum(c) {
        LettersConcat(Canon(g) + Gap(g, Canon(g), c), [c]);
        LettersConcat(Canon(g), Gap(g, Canon(g), c));
      }
    }
  }
}
