/** Exactly when deduplication leaves one finding for each pair of quotes, told from the findings alone. */
module Uniqueness {
  import opened Findings
  import opened Clustering
  import opened Links
  import opened Dedup

  /** Findings on one pair of quotes always end in one cluster, if and only if no finding is similar to two earlier ones
      that no chain of similar earlier findings linked. */
  lemma TogetherIffLinked(norm: Normalizer, fs: seq<Finding>)
    ensures Cohesive(Similar(norm), Clusters(Similar(norm), fs)) <==> LinksClosed(Similar(norm), fs)
  {
    SimilarIsSymmetric(norm);
    TogetherIff(Similar(norm), fs);
  }

  // ---- The same quotes under other types ------------------------------------------------------------------------

  /** The findings of `gs` are those of `fs`, under types of their own. */
  ghost predicate Retyped(fs: seq<Finding>, gs: seq<Finding>) {
    |fs| == |gs| && forall i | 0 <= i < |fs| :: gs[i] == fs[i].(kind := gs[i].kind)
  }

  /** The most specific type for `a` and `b`, the least specific for the others. */
  function Retype(a: Finding, b: Finding, f: Finding): Finding {
    f.(kind := if f == a || f == b then Arithmetic else Internal)
  }

  function RetypeAll(a: Finding, b: Finding, fs: seq<Finding>): seq<Finding> {
    seq(|fs|, i requires 0 <= i < |fs| => Retype(a, b, fs[i]))
  }

  function RetypeEach(a: Finding, b: Finding, cs: seq<seq<Finding>>): seq<seq<Finding>> {
    seq(|cs|, i requires 0 <= i < |cs| => RetypeAll(a, b, cs[i]))
  }

  lemma MatchesRetyped(norm: Normalizer, a: Finding, b: Finding, f: Finding, c: seq<Finding>)
    ensures Matches(Similar(norm), Retype(a, b, f), RetypeAll(a, b, c)) <==> Matches(Similar(norm), f, c)
  {
    var same := Similar(norm);
    assert forall g :: same(Retype(a, b, f), Retype(a, b, g)) == same(f, g);
    if Matches(same, f, c) {
      var i :| 0 <= i < |c| && same(f, c[i]);
      assert same(Retype(a, b, f), RetypeAll(a, b, c)[i]);
    }
  }

  lemma {:induction false} FirstMatchRetyped(norm: Normalizer, a: Finding, b: Finding, f: Finding,
                                            cs: seq<seq<Finding>>)
    ensures FirstMatch(Similar(norm), Retype(a, b, f), RetypeEach(a, b, cs)) == FirstMatch(Similar(norm), f, cs)
  {
    if cs != [] {
      MatchesRetyped(norm, a, b, f, cs[0]);
      FirstMatchRetyped(norm, a, b, f, cs[1..]);
      assert RetypeEach(a, b, cs)[1..] == RetypeEach(a, b, cs[1..]);
    }
  }

  lemma PlaceRetyped(norm: Normalizer, a: Finding, b: Finding, f: Finding, cs: seq<seq<Finding>>)
    ensures Place(Similar(norm), Retype(a, b, f), RetypeEach(a, b, cs)) == RetypeEach(a, b, Place(Similar(norm), f, cs))
  {
    FirstMatchRetyped(norm, a, b, f, cs);
    var k := FirstMatch(Similar(norm), f, cs);
    if k < |cs| {
      assert RetypeAll(a, b, cs[k] + [f]) == RetypeAll(a, b, cs[k]) + [Retype(a, b, f)];
    } else {
      assert RetypeAll(a, b, [f]) == [Retype(a, b, f)];
    }
  }

  /** Types play no part in the clustering. */
  lemma {:induction false} ClustersRetyped(norm: Normalizer, a: Finding, b: Finding, fs: seq<Finding>)
    ensures Clusters(Similar(norm), RetypeAll(a, b, fs)) == RetypeEach(a, b, Clusters(Similar(norm), fs))
  {
    if fs != [] {
      var r, f := fs[..|fs| - 1], fs[|fs| - 1];
      ClustersRetyped(norm, a, b, r);
      assert RetypeAll(a, b, fs)[..|fs| - 1] == RetypeAll(a, b, r);
      PlaceRetyped(norm, a, b, f, Clusters(Similar(norm), r));
    }
  }

  /** A cluster that holds `a` or `b` then speaks by the quotes of one of them. */
  lemma RetypedSpeaker(a: Finding, b: Finding, c: seq<Finding>)
    requires a in c || b in c
    ensures var o := Merge(RetypeAll(a, b, c)); SameQuotes(o, a) || SameQuotes(o, b)
  {
    var d := RetypeAll(a, b, c);
    var m := if a in c then a else b;
    var i :| 0 <= i < |c| && c[i] == m;
    assert d[i] == Retype(a, b, m) && d[i] in d;
    MostSpecificWins(d);
    var k :| 0 <= k < |d| && d[k] == MostSpecific(d);
    assert Rank(d[k].kind) <= Rank(Arithmetic);
    assert d[k] == Retype(a, b, c[k]);
  }

  lemma SpeakersAreSimilar(norm: Normalizer, a: Finding, b: Finding, o: Finding, p: Finding)
    requires Similar(norm)(a, b) && (SameQuotes(o, a) || SameQuotes(o, b)) && (SameQuotes(p, a) || SameQuotes(p, b))
    ensures Similar(norm)(o, p)
  {
    SimilarIsSymmetric(norm);
    var x := if SameQuotes(o, a) then a else b;
    var y := if SameQuotes(p, a) then a else b;
    assert Similar(norm)(x, y) && Similar(norm)(b, a);
    assert Similar(norm)(o, p) == Similar(norm)(x, y);
  }

  /** Two similar findings in two clusters: typed alike and above the others, they are what both outputs quote. */
  lemma SplitPairIsReportedTwice(norm: Normalizer, fs: seq<Finding>) returns (gs: seq<Finding>)
    requires !Cohesive(Similar(norm), Clusters(Similar(norm), fs))
    ensures Retyped(fs, gs) && !Dissimilar(Similar(norm), Deduplicated(norm, gs))
  {
    var same, cs := Similar(norm), Clusters(Similar(norm), fs);
    var c, d :| 0 <= c < |cs| && 0 <= d < |cs| && c != d && !Apart(same, cs[c], cs[d]);
    var m, n :| 0 <= m < |cs[c]| && 0 <= n < |cs[d]| && same(cs[c][m], cs[d][n]);
    var a, b := cs[c][m], cs[d][n];
    gs := RetypeAll(a, b, fs);
    ClustersRetyped(norm, a, b, fs);
    ClustersAreNonempty(same, gs);
    assert a in cs[c] && b in cs[d];
    RetypedSpeaker(a, b, cs[c]);
    RetypedSpeaker(a, b, cs[d]);
    var out := Deduplicated(norm, gs);
    assert out[c] == Merge(RetypeAll(a, b, cs[c])) && out[d] == Merge(RetypeAll(a, b, cs[d]));
    SpeakersAreSimilar(norm, a, b, out[c], out[d]);
    SpeakersAreSimilar(norm, a, b, out[d], out[c]);
  }

  /** One finding for each pair of quotes, whatever types the passes give them, if and only if links are closed: a
      condition on the quotes and their order alone. */
  lemma UniquenessIff(norm: Normalizer, fs: seq<Finding>)
    ensures (forall gs | Retyped(fs, gs) :: Dissimilar(Similar(norm), Deduplicated(norm, gs)))
            <==> LinksClosed(Similar(norm), fs)
  {
    SimilarIsSymmetric(norm);
    if LinksClosed(Similar(norm), fs) {
      forall gs | Retyped(fs, gs)
        ensures Dissimilar(Similar(norm), Deduplicated(norm, gs))
      {
        AlikeClosed(Similar(norm), fs, gs);
        LinksClosedIff(Similar(norm), gs);
        OutputsAreDissimilar(norm, gs);
      }
    } else {
      TogetherIffLinked(norm, fs);
      var gs := SplitPairIsReportedTwice(norm, fs);
    }
  }

  lemma MatchesOne(same: (Finding, Finding) -> bool, x: Finding, y: Finding)
    ensures Matches(same, x, [y]) <==> same(x, y)
  {
    assert same(x, y) ==> same(x, [y][0]);
  }

  lemma BridgeOfThree(same: (Finding, Finding) -> bool, a: Finding, b: Finding, c: Finding)
    requires Symmetric(same) && Reflexive(same) && !same(b, a) && same(c, a) && same(c, b)
    ensures Clusters(same, [a, b, c]) == [[a, c], [b]] && !LinksClosed(same, [a, b, c])
  {
    var xs := [a, b, c];
    assert xs[..2] == [a, b] && [a, b][..1] == [a] && [a][..0] == [];
    assert Clusters(same, [a]) == [[a]];
    MatchesOne(same, b, a);
    MatchesOne(same, c, a);
    MatchesOne(same, c, b);
    assert Clusters(same, [a, b]) == [[a], [b]];
    assert FirstMatch(same, c, [[a], [b]]) == 0 && [a] + [c] == [a, c];
    assert [[a], [b]][0 := [a, c]] == [[a, c], [b]];
    assert Clusters(same, xs) == Place(same, c, [[a], [b]]);
    assert Bridges(same, xs[2], Clusters(same, xs[..2])) by {
      assert Matches(same, c, Clusters(same, [a, b])[0]) && Matches(same, c, Clusters(same, [a, b])[1]);
    }
    LinksClosedIff(same, xs);
  }

  /** Under given types the condition is sufficient and not necessary: here it fails, and the outputs still differ. */
  lemma LuckyTypes(norm: Normalizer) returns (fs: seq<Finding>)
    requires FixesPlainWords(norm)
    ensures !LinksClosed(Similar(norm), fs) && Dissimilar(Similar(norm), Deduplicated(norm, fs))
  {
    var p, x, y, q := Truncations(norm, 1);
    var a := Finding(Internal, x, q, "", Low, []);
    var b := Finding(Internal, y, q, "", Low, []);
    var c := Finding(Internal, p, q, "", Low, []);
    fs := [a, b, c];
    SimilarIsSymmetric(norm);
    BridgeOfThree(Similar(norm), a, b, c);
    ClustersAreNonempty(Similar(norm), fs);
    FirstSpeaks(a, b, c);
    OutputsOfTwo(norm, a, b, Deduplicated(norm, fs));
  }

  lemma FirstSpeaks(a: Finding, b: Finding, c: Finding)
    requires a.kind == c.kind
    ensures SameQuotes(Merge([a, c]), a) && SameQuotes(Merge([b]), b)
  {
    assert [a, c][..1] == [a];
    assert MostSpecific([a]) == a;
  }

  lemma OutputsOfTwo(norm: Normalizer, a: Finding, b: Finding, out: seq<Finding>)
    requires |out| == 2 && SameQuotes(out[0], a) && SameQuotes(out[1], b) && !Similar(norm)(a, b)
    ensures Dissimilar(Similar(norm), out)
  {
    assert Similar(norm)(out[0], out[1]) == Similar(norm)(a, b);
  }
}
