/** Exactly when cleaning a narrative leaves its quotes alone. Removing a control character (a zero-width
    space, a soft hyphen) can weld two words that quote normalisation keeps apart. */
module QuotePreservation {
  import opened Text
  import opened Quotes
  import opened Grounding
  import opened Narrative

  predicate EndsWord(f: string) {
    f != [] && IsAlnum(f[|f| - 1])
  }

  predicate StartsWord(f: string) {
    f != [] && IsAlnum(f[0])
  }

  /** Leaves no trace in the cleaned and folded text. */
  predicate Traceless(u: Unicode, c: char) {
    Removed(u, c) || u.fold(c) == []
  }

  /** The clean-up welds the words around positions `i` and `j`: everything between them vanishes, and
      something that vanishes only there was a separator for the normaliser. Two digits are welded anyway. */
  ghost predicate Welds(u: Unicode, s: string, i: int, j: int) {
    && 0 <= i < j < |s|
    && EndsWord(u.fold(s[i])) && StartsWord(u.fold(s[j]))
    && !(IsDigit(u.fold(s[i])[|u.fold(s[i])| - 1]) && IsDigit(u.fold(s[j])[0]))
    && (forall k | i < k < j :: Traceless(u, s[k]))
    && (exists k :: i < k < j && Removed(u, s[k]))
  }

  // ---- The end of a text, before and after clean-up ---------------------------------------------

  /** Position of the character that ends the cleaned text with a letter or digit, or -1. */
  function WordEnd(u: Unicode, s: string): (e: int)
    ensures -1 <= e < |s|
  {
    if s == [] then -1
    else
      var c := s[|s| - 1];
      if Traceless(u, c) then WordEnd(u, s[..|s| - 1])
      else if EndsWord(u.fold(c)) then |s| - 1
      else -1
  }

  /** A removed character stands after the last one that leaves a trace. */
  function Cut(u: Unicode, s: string): bool {
    if s == [] then false
    else
      var c := s[|s| - 1];
      Removed(u, c) || (u.fold(c) == [] && Cut(u, s[..|s| - 1]))
  }

  lemma {:induction false} KeptConcat(u: Unicode, s: string, t: string)
    ensures Kept(u, s + t) == Kept(u, s) + Kept(u, t)
  {
    if s == [] {
      assert s + t == t;
    } else {
      assert (s + t)[1..] == s[1..] + t;
      KeptConcat(u, s[1..], t);
    }
  }

  /** One more character, before and after clean-up. */
  lemma KeptSnoc(u: Unicode, s: string, c: char)
    ensures Fold(u, s + [c]) == Fold(u, s) + u.fold(c)
    ensures Fold(u, Kept(u, s + [c])) == Fold(u, Kept(u, s)) + if Removed(u, c) then [] else u.fold(c)
  {
    KeptConcat(u, s, [c]);
    FoldConcat(u, s, [c]);
    assert Kept(u, [c]) == if Removed(u, c) then [] else [c];
    FoldConcat(u, Kept(u, s), Kept(u, [c]));
    assert [c][1..] == [];
  }

  lemma {:induction false} KeptTail(u: Unicode, s: string)
    ensures var e, b := WordEnd(u, s), Fold(u, Kept(u, s));
            && (EndsWord(b) <==> e >= 0)
            && (e >= 0 ==> EndsWord(u.fold(s[e])) && b[|b| - 1] == u.fold(s[e])[|u.fold(s[e])| - 1])
  {
    if s != [] {
      var r, c := s[..|s| - 1], s[|s| - 1];
      assert s == r + [c];
      KeptTail(u, r);
      KeptSnoc(u, r, c);
    }
  }

  lemma {:induction false} FoldTail(u: Unicode, s: string)
    requires u.Faithful()
    ensures EndsWord(Fold(u, s)) <==> WordEnd(u, s) >= 0 && !Cut(u, s)
  {
    if s != [] {
      var r, c := s[..|s| - 1], s[|s| - 1];
      assert s == r + [c];
      FoldTail(u, r);
      KeptSnoc(u, r, c);
    }
  }

  lemma TailState(u: Unicode, s: string)
    requires u.Faithful()
    ensures var e, a, b := WordEnd(u, s), Fold(u, s), Fold(u, Kept(u, s));
            && (EndsWord(b) <==> e >= 0)
            && (EndsWord(a) <==> e >= 0 && !Cut(u, s))
            && (e >= 0 ==> EndsWord(u.fold(s[e])) && b[|b| - 1] == u.fold(s[e])[|u.fold(s[e])| - 1])
  {
    KeptTail(u, s);
    FoldTail(u, s);
  }

  lemma {:induction false} TracelessAfter(u: Unicode, s: string, k: nat)
    requires WordEnd(u, s) >= 0 && WordEnd(u, s) < k < |s|
    ensures Traceless(u, s[k])
  {
    if k < |s| - 1 {
      TracelessAfter(u, s[..|s| - 1], k);
    }
  }

  lemma {:induction false} CutPlace(u: Unicode, s: string) returns (k: nat)
    requires WordEnd(u, s) >= 0 && Cut(u, s)
    ensures WordEnd(u, s) < k < |s| && Removed(u, s[k])
  {
    if Removed(u, s[|s| - 1]) {
      k := |s| - 1;
    } else {
      k := CutPlace(u, s[..|s| - 1]);
    }
  }

  lemma {:induction false} WordEndUnique(u: Unicode, s: string, i: nat)
    requires u.Faithful()
    requires i < |s| && EndsWord(u.fold(s[i])) && forall k | i < k < |s| :: Traceless(u, s[k])
    ensures WordEnd(u, s) == i
    ensures (exists k :: i < k < |s| && Removed(u, s[k])) ==> Cut(u, s)
  {
    if i < |s| - 1 {
      var r := s[..|s| - 1];
      assert forall k | i < k < |r| :: r[k] == s[k];
      WordEndUnique(u, r, i);
      assert Traceless(u, s[|s| - 1]);
      if k :| i < k < |s| && Removed(u, s[k]) {
        assert k < |r| ==> Removed(u, r[k]);
      }
    }
  }

  /** The state before the last character `c` announces a weld that ends there. */
  predicate WeldReady(u: Unicode, r: string, c: char) {
    var e := WordEnd(u, r);
    && e >= 0 && Cut(u, r) && StartsWord(u.fold(c))
    && EndsWord(u.fold(r[e]))
    && !(IsDigit(u.fold(r[e])[|u.fold(r[e])| - 1]) && IsDigit(u.fold(c)[0]))
  }

  lemma WeldIsReady(u: Unicode, r: string, c: char, i: int)
    requires u.Faithful() && Welds(u, r + [c], i, |r|)
    ensures WeldReady(u, r, c)
  {
    var s := r + [c];
    forall k | i < k < |r|
      ensures Traceless(u, r[k])
    {
      assert r[k] == s[k];
    }
    var k :| i < k < |r| && Removed(u, s[k]);
    assert Removed(u, r[k]);
    WordEndUnique(u, r, i);
  }

  lemma ReadyWelds(u: Unicode, r: string, c: char)
    requires u.Faithful() && WeldReady(u, r, c)
    ensures Welds(u, r + [c], WordEnd(u, r), |r|)
  {
    var s, e := r + [c], WordEnd(u, r);
    assert s[e] == r[e] && s[|r|] == c;
    forall k | e < k < |r|
      ensures Traceless(u, s[k])
    {
      TracelessAfter(u, r, k);
      assert s[k] == r[k];
    }
    var k := CutPlace(u, r);
    assert s[k] == r[k];
  }

  /** A weld that ends at the last character is read off the state before it. */
  lemma WeldAtEnd(u: Unicode, r: string, c: char)
    requires u.Faithful()
    ensures (exists i :: Welds(u, r + [c], i, |r|)) <==> WeldReady(u, r, c)
  {
    if WeldReady(u, r, c) {
      ReadyWelds(u, r, c);
    }
    if exists i :: Welds(u, r + [c], i, |r|) {
      var i :| Welds(u, r + [c], i, |r|);
      WeldIsReady(u, r, c, i);
    }
  }

  lemma WeldsInPrefix(u: Unicode, r: string, c: char)
    ensures (exists i, j :: Welds(u, r + [c], i, j))
            <==> (exists i, j :: Welds(u, r, i, j)) || (exists i :: Welds(u, r + [c], i, |r|))
  {
    var s := r + [c];
    forall i, j | j < |r|
      ensures Welds(u, s, i, j) <==> Welds(u, r, i, j)
    {
      if 0 <= i < j {
        assert forall k | 0 <= k < |r| :: s[k] == r[k];
      }
    }
  }

  // ---- The normal form, before and after --------------------------------------------------------

  lemma CanonEnds(f: string)
    ensures EndsWord(f) ==> EndsWord(Canon(f)) && Canon(f)[|Canon(f)| - 1] == f[|f| - 1]
    ensures StartsWord(f) ==> StartsWord(Canon(f)) && Canon(f)[0] == f[0]
  {
    if StartsWord(f) {
      assert f == [f[0]] + f[1..];
      CanonConcat([f[0]], f[1..]);
      assert Canon([f[0]]) == [f[0]];
    }
  }

  /** Appending `x` (normal form `n`) to a text and to its cleaned form, of normal forms `a` and `b`:
      the cleaned one can only lose the separator. */
  lemma JointLoss(p: string, a: string, q: string, b: string, x: string, n: string)
    requires (a == [] <==> b == []) && (a != [] ==> a[|a| - 1] == b[|b| - 1])
    requires (p == [] ==> a == []) && (q == [] ==> b == []) && (x == [] ==> n == [])
    requires (EndsWord(p) ==> EndsWord(q)) && (EndsWord(q) ==> b != [])
    requires StartsWord(x) ==> n != [] && n[0] == x[0]
    ensures var lost := !EndsWord(p) && EndsWord(q) && StartsWord(x) && !(IsDigit(b[|b| - 1]) && IsDigit(x[0]));
            Joint(p, a, x, n) == (if lost then " " else Joint(q, b, x, n)) && (lost ==> Joint(q, b, x, n) == "")
  {
  }

  ghost predicate Agree(a: string, b: string, welded: bool) {
    && (a == [] <==> b == []) && (a != [] ==> a[|a| - 1] == b[|b| - 1])
    && |b| <= |a| && (|a| == |b| ==> a == b) && (|a| == |b| <==> !welded)
  }

  lemma AgreeAppend(a: string, b: string, w: bool, s: string, t: string, n: string, lost: bool)
    requires Agree(a, b, w) && n != []
    requires s == (if lost then " " else t) && (lost ==> t == "")
    ensures Agree(a + s + n, b + t + n, w || lost)
  {
    var l, r := a + s + n, b + t + n;
    assert l[|l| - 1] == n[|n| - 1] == r[|r| - 1];
  }

  ghost predicate Lost(p: string, q: string, x: string) {
    !EndsWord(p) && EndsWord(q) && StartsWord(x) && !(IsDigit(q[|q| - 1]) && IsDigit(x[0]))
  }

  /** One folded character `x`, kept or removed, after the folded text `p` and its cleaned form `q`. */
  lemma AgreeStep(p: string, q: string, x: string, removed: bool, w: bool)
    requires Agree(Canon(p), Canon(q), w)
    requires EndsWord(p) ==> EndsWord(q)
    requires removed ==> Blank(x)
    ensures Agree(Canon(p + x), Canon(q + if removed then [] else x), w || Lost(p, q, x))
  {
    CanonConcat(p, x);
    CanonConcat(q, x);
    CanonBlank(x);
    CanonEnds(q);
    CanonEnds(x);
    assert q + [] == q;
    assert p == [] ==> Canon(p) == [];
    AgreeValues(p, Canon(p), q, Canon(q), x, Canon(x), w);
  }

  lemma AgreeValues(p: string, a: string, q: string, b: string, x: string, n: string, w: bool)
    requires Agree(a, b, w)
    requires EndsWord(p) ==> EndsWord(q)
    requires (p == [] ==> a == []) && (q == [] ==> b == []) && (n == [] <==> Blank(x))
    requires EndsWord(q) ==> EndsWord(b) && b[|b| - 1] == q[|q| - 1]
    requires StartsWord(x) ==> StartsWord(n) && n[0] == x[0]
    ensures Agree(a + Joint(p, a, x, n) + n, b + Joint(q, b, x, n) + n, w || Lost(p, q, x))
    ensures n == [] ==> a + Joint(p, a, x, n) + n == a && b + Joint(q, b, x, n) + n == b
  {
    if n == [] {
      assert a + "" + [] == a && b + "" + [] == b;
    } else {
      JointLoss(p, a, q, b, x, n);
      AgreeAppend(a, b, w, Joint(p, a, x, n), Joint(q, b, x, n), n, Lost(p, q, x));
    }
  }

  lemma {:induction false} CanonOfKept(u: Unicode, s: string)
    requires u.Faithful()
    ensures Agree(Canon(Fold(u, s)), Canon(Fold(u, Kept(u, s))), exists i, j :: Welds(u, s, i, j))
  {
    if s != [] {
      var r, c := s[..|s| - 1], s[|s| - 1];
      assert s == r + [c];
      CanonOfKept(u, r);
      KeptSnoc(u, r, c);
      WeldsInPrefix(u, r, c);
      WeldAtEnd(u, r, c);
      TailState(u, r);
      AgreeStep(Fold(u, r), Fold(u, Kept(u, r)), u.fold(c), Removed(u, c), exists i, j :: Welds(u, r, i, j));
    }
  }

  /** Cleaning a narrative leaves its normal form unchanged exactly when it welds no two words. */
  lemma CleaningKeepsQuotesIff(u: Unicode, t: string)
    requires u.Faithful()
    ensures NormalizeQuote(u, NormalizeNarrative(u, t)) == NormalizeQuote(u, t)
            <==> !exists i, j :: Welds(u, t, i, j)
  {
    NarrativeQuotes(u, t);
    PassesComputeCanon(u, t);
    CanonOfKept(u, t);
  }

  /** Without control characters other than line ends and tabs, nothing changes in what is grounded. */
  lemma CleaningKeepsGrounding(u: Unicode, quote: string, t: string)
    requires u.Faithful()
    requires forall i | 0 <= i < |t| :: !Removed(u, t[i])
    ensures NormalizeQuote(u, NormalizeNarrative(u, t)) == NormalizeQuote(u, t)
    ensures QuoteIsGrounded(u, quote, NormalizeNarrative(u, t)) <==> QuoteIsGrounded(u, quote, t)
  {
    CleaningKeepsQuotesIff(u, t);
  }

  /** The promise that quotes stay findable in a cleaned dossier fails on a single zero-width space. */
  lemma ZeroWidthSpaceWelds(u: Unicode)
    requires u.Faithful() && u.control('\U{200B}')
    ensures NormalizeQuote(u, NormalizeNarrative(u, "ab\U{200B}cd")) != NormalizeQuote(u, "ab\U{200B}cd")
  {
    var t := "ab\U{200B}cd";
    assert u.fold(t[1]) == "b" && u.fold(t[3]) == "c" && Removed(u, t[2]);
    assert Welds(u, t, 1, 3);
    CleaningKeepsQuotesIff(u, t);
  }
}
