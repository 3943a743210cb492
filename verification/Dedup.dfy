/** Deduplication of findings (`dedup.py`): one finding for each pair of quotes, of the most verifiable
    type and the highest severity. The quote normaliser is a parameter here: `Analysis` supplies it. */
module Dedup {
  import opened Text
  import opened Findings
  import opened Clustering

  type Normalizer = string -> string

  const MIN_PREFIX_LENGTH := 40

  /** From the most verifiable type to the most generic. */
  const SPECIFICITY := [Arithmetic, Temporal, Regulatory, Market, Capacity, Internal]

  function Rank(k: InconsistencyType): (r: nat)
    ensures r < |SPECIFICITY| && SPECIFICITY[r] == k
  {
    match k
    case Arithmetic => 0
    case Temporal => 1
    case Regulatory => 2
    case Market => 3
    case Capacity => 4
    case Internal => 5
  }

  function SeverityRank(s: Severity): nat {
    match s
    case Low => 0
    case Medium => 1
    case High => 2
  }

  /** Two normal forms denote the same sentence: equal, or one long enough and a prefix of the other. */
  predicate SameNormal(l: string, r: string) {
    if l == "" || r == "" then l == r
    else if l == r then true
    else
      var (shorter, longer) := if |l| <= |r| then (l, r) else (r, l);
      |shorter| >= MIN_PREFIX_LENGTH && shorter <= longer
  }

  predicate SameQuote(norm: Normalizer, l: string, r: string) {
    SameNormal(norm(l), norm(r))
  }

  /** The order of the two quotes of a finding does not matter. */
  predicate SamePair(norm: Normalizer, f: Finding, g: Finding) {
    || (SameQuote(norm, f.quoteA, g.quoteA) && SameQuote(norm, f.quoteB, g.quoteB))
    || (SameQuote(norm, f.quoteA, g.quoteB) && SameQuote(norm, f.quoteB, g.quoteA))
  }

  function Similar(norm: Normalizer): (Finding, Finding) -> bool {
    (f, g) => SamePair(norm, f, g)
  }

  /** One sentence: equal normal forms, or one of at least forty characters that begins the other. */
  ghost predicate OneSentence(l: string, r: string) {
    l == r || (|l| >= 40 && l <= r) || (|r| >= 40 && r <= l)
  }

  /** Two findings are one exactly when their quotes are pairwise one sentence, straight or crossed. */
  lemma SimilarIff(norm: Normalizer, f: Finding, g: Finding)
    ensures Similar(norm)(f, g)
            <==> (OneSentence(norm(f.quoteA), norm(g.quoteA)) && OneSentence(norm(f.quoteB), norm(g.quoteB)))
                 || (OneSentence(norm(f.quoteA), norm(g.quoteB)) && OneSentence(norm(f.quoteB), norm(g.quoteA)))
  {
    forall l, r
      ensures SameNormal(l, r) <==> OneSentence(l, r)
    {
    }
  }

  lemma SimilarIsSymmetric(norm: Normalizer)
    ensures Symmetric(Similar(norm))
  {
    forall l, r
      ensures SameNormal(l, r) == SameNormal(r, l)
    {
    }
    forall f, g
      ensures SamePair(norm, f, g) == SamePair(norm, g, f)
    {
    }
  }

  // ---- Merging a cluster -----------------------------------------------------------------------

  /** The first member of the most specific type. */
  function MostSpecific(c: seq<Finding>): Finding
    requires c != []
  {
    if |c| == 1 then c[0]
    else
      var m := MostSpecific(c[..|c| - 1]);
      if Rank(c[|c| - 1].kind) < Rank(m.kind) then c[|c| - 1] else m
  }

  function HighestSeverity(c: seq<Finding>): Severity
    requires c != []
  {
    if |c| == 1 then c[0].severity
    else
      var m := HighestSeverity(c[..|c| - 1]);
      if SeverityRank(c[|c| - 1].severity) > SeverityRank(m) then c[|c| - 1].severity else m
  }

  function Kinds(c: seq<Finding>): set<InconsistencyType> {
    set f | f in c :: f.kind
  }

  /** The members of `s`, in the order of `order`. */
  function InOrder(order: seq<InconsistencyType>, s: set<InconsistencyType>): seq<InconsistencyType> {
    if order == [] then []
    else (if order[0] in s then [order[0]] else []) + InOrder(order[1..], s)
  }

  function Merge(c: seq<Finding>): Finding
    requires c != []
  {
    var kept := MostSpecific(c);
    kept.(severity := HighestSeverity(c), mergedTypes := InOrder(SPECIFICITY, Kinds(c) - {kept.kind}))
  }

  function MergeAll(cs: seq<seq<Finding>>): seq<Finding>
    requires AllNonempty(cs)
  {
    seq(|cs|, i requires 0 <= i < |cs| => Merge(cs[i]))
  }

  /** What `Deduplicate` returns. */
  function Deduplicated(norm: Normalizer, fs: seq<Finding>): seq<Finding> {
    ClustersAreNonempty(Similar(norm), fs);
    MergeAll(Clusters(Similar(norm), fs))
  }

  method Deduplicate(norm: Normalizer, findings: seq<Finding>) returns (out: seq<Finding>)
    ensures out == Deduplicated(norm, findings)
  {
    ghost var same := Similar(norm);
    var clusters: seq<seq<Finding>> := [];
    for n := 0 to |findings|
      invariant clusters == Clusters(same, findings[..n])
    {
      var f := findings[n];
      ghost var before := clusters;
      ghost var k := FirstMatch(same, f, clusters);
      var placed := false;
      for i := 0 to |clusters|
        invariant clusters == before && !placed
        invariant forall j | 0 <= j < i :: !Matches(same, f, before[j])
      {
        if exists m | 0 <= m < |clusters[i]| :: SamePair(norm, f, clusters[i][m]) {
          assert Matches(same, f, before[i]);
          assert k == i;
          clusters := clusters[i := clusters[i] + [f]];
          placed := true;
          break;
        }
        assert !Matches(same, f, before[i]);
      }
      if !placed {
        clusters := clusters + [[f]];
      }
      assert clusters == Place(same, f, before);
      assert findings[..n + 1][..n] == findings[..n];
    }
    assert findings[..|findings|] == findings;
    ClustersAreNonempty(same, findings);
    out := seq(|clusters|, i requires 0 <= i < |clusters| => Merge(clusters[i]));
  }

  lemma {:induction false} MostSpecificWins(c: seq<Finding>)
    requires c != []
    ensures MostSpecific(c) in c
    ensures forall f | f in c :: Rank(MostSpecific(c).kind) <= Rank(f.kind)
  {
    if |c| > 1 {
      MostSpecificWins(c[..|c| - 1]);
      assert c == c[..|c| - 1] + [c[|c| - 1]];
    }
  }

  lemma {:induction false} HighestSeverityIn(c: seq<Finding>) returns (f: Finding)
    requires c != []
    ensures f in c && f.severity == HighestSeverity(c)
  {
    var r, x := c[..|c| - 1], c[|c| - 1];
    assert c == r + [x];
    f := x;
    if r != [] && SeverityRank(x.severity) <= SeverityRank(HighestSeverity(r)) {
      f := HighestSeverityIn(r);
    }
  }

  lemma {:induction false} HighestSeverityWins(c: seq<Finding>)
    requires c != []
    ensures forall f | f in c :: SeverityRank(f.severity) <= SeverityRank(HighestSeverity(c))
  {
    var r, x := c[..|c| - 1], c[|c| - 1];
    assert c == r + [x];
    if r != [] {
      HighestSeverityWins(r);
    }
  }

  lemma {:induction false} InOrderMembers(order: seq<InconsistencyType>, s: set<InconsistencyType>)
    ensures forall k :: k in InOrder(order, s) <==> k in order && k in s
  {
    if order != [] {
      InOrderMembers(order[1..], s);
      assert order == [order[0]] + order[1..];
    }
  }

  ghost predicate Ranked(order: seq<InconsistencyType>) {
    forall i, j | 0 <= i < j < |order| :: Rank(order[i]) < Rank(order[j])
  }

  lemma SpecificityIsRanked()
    ensures Ranked(SPECIFICITY)
  {
    forall i | 0 <= i < |SPECIFICITY|
      ensures Rank(SPECIFICITY[i]) == i
    {
      assert i == 0 || i == 1 || i == 2 || i == 3 || i == 4 || i == 5;
    }
  }

  lemma {:induction false} InOrderRanked(order: seq<InconsistencyType>, s: set<InconsistencyType>)
    requires Ranked(order)
    ensures Ranked(InOrder(order, s))
  {
    if order != [] {
      InOrderRanked(order[1..], s);
      InOrderMembers(order[1..], s);
      forall x | x in order[1..]
        ensures Rank(order[0]) < Rank(x)
      {
        var i :| 0 <= i < |order[1..]| && order[1..][i] == x;
        assert order[i + 1] == x;
      }
    }
  }

  /** One High is enough for High, and only Lows give Low. */
  ghost predicate IsHighest(severities: set<Severity>, s: Severity) {
    && (s == High <==> High in severities)
    && (s == Low <==> severities == {Low})
    && (s == Medium <==> Medium in severities && High !in severities)
  }

  /** Arithmetic wins over everything, Internal only over nothing. */
  ghost predicate IsMostSpecific(kinds: set<InconsistencyType>, k: InconsistencyType) {
    && (k == Arithmetic <==> Arithmetic in kinds)
    && (k == Temporal <==> Temporal in kinds && Arithmetic !in kinds)
    && (k == Regulatory <==> Regulatory in kinds && {Arithmetic, Temporal} !! kinds)
    && (k == Market <==> Market in kinds && {Arithmetic, Temporal, Regulatory} !! kinds)
    && (k == Capacity <==> Capacity in kinds && {Arithmetic, Temporal, Regulatory, Market} !! kinds)
    && (k == Internal <==> kinds == {Internal})
  }

  lemma HighestIs(severities: set<Severity>, s: Severity)
    requires s in severities && forall t | t in severities :: SeverityRank(t) <= SeverityRank(s)
    ensures IsHighest(severities, s)
  {
    if s == Low {
      forall t | t in severities
        ensures t == Low
      {
        assert SeverityRank(t) <= SeverityRank(s);
      }
    }
  }

  lemma MostSpecificIs(kinds: set<InconsistencyType>, k: InconsistencyType)
    requires k in kinds && forall l | l in kinds :: Rank(k) <= Rank(l)
    ensures IsMostSpecific(kinds, k)
  {
    forall l | l in {Arithmetic, Temporal, Regulatory, Market, Capacity} && l in kinds
      ensures Rank(k) <= Rank(l)
    {
    }
    if k == Internal {
      forall l | l in kinds
        ensures l == Internal
      {
        assert Rank(k) <= Rank(l);
      }
    }
  }

  /** A merged finding quotes one of its members, carries the most specific type and the highest severity
      of the group, and lists every other type of the group once, in order of specificity. */
  lemma MergeConserves(c: seq<Finding>)
    requires c != []
    ensures var o := Merge(c);
            && (exists f :: f in c && f.quoteA == o.quoteA && f.quoteB == o.quoteB && f.kind == o.kind)
            && (forall f | f in c :: Rank(o.kind) <= Rank(f.kind))
            && (exists f :: f in c && f.severity == o.severity)
            && (forall f | f in c :: SeverityRank(f.severity) <= SeverityRank(o.severity))
            && {o.kind} + (set k | k in o.mergedTypes) == Kinds(c)
            && o.kind !in o.mergedTypes
            && (forall i, j | 0 <= i < j < |o.mergedTypes| :: Rank(o.mergedTypes[i]) < Rank(o.mergedTypes[j]))
  {
    var kept, rest := MostSpecific(c), Kinds(c) - {MostSpecific(c).kind};
    MostSpecificWins(c);
    HighestSeverityWins(c);
    var worst := HighestSeverityIn(c);
    SpecificityIsRanked();
    InOrderMembers(SPECIFICITY, rest);
    InOrderRanked(SPECIFICITY, rest);
    assert kept.kind in Kinds(c);
    forall k | k in rest
      ensures k in InOrder(SPECIFICITY, rest)
    {
      assert SPECIFICITY[Rank(k)] == k;
    }
    assert (set k | k in InOrder(SPECIFICITY, rest)) == rest;
  }

  function Severities(c: seq<Finding>): set<Severity> {
    set f | f in c :: f.severity
  }

  /** The same in the types and severities themselves. */
  lemma MergeIsWorst(c: seq<Finding>)
    requires c != []
    ensures IsHighest(Severities(c), Merge(c).severity) && IsMostSpecific(Kinds(c), Merge(c).kind)
  {
    var o := Merge(c);
    MergeConserves(c);
    forall s | s in Severities(c)
      ensures SeverityRank(s) <= SeverityRank(o.severity)
    {
    }
    forall k | k in Kinds(c)
      ensures Rank(o.kind) <= Rank(k)
    {
    }
    HighestIs(Severities(c), o.severity);
    MostSpecificIs(Kinds(c), o.kind);
  }

  // ---- The outputs -----------------------------------------------------------------------------

  /** Same quotes, hence the same for every similarity test. */
  ghost predicate SameQuotes(f: Finding, g: Finding) {
    f.quoteA == g.quoteA && f.quoteB == g.quoteB
  }

  /** Each output speaks for one cluster; the clusters partition the input, their first members are the
      findings similar to no earlier one, in input order, and every other member is linked to its
      cluster's first one by a chain of similar findings. */
  lemma OutputsCoverTheInput(norm: Normalizer, fs: seq<Finding>)
    ensures var same := Similar(norm);
            var cs := Clusters(same, fs);
            && multiset(Flatten(cs)) == multiset(fs)
            && AllNonempty(cs) && Heads(cs) == Novel(same, fs) && Dissimilar(same, Novel(same, fs))
            && (forall c | c in cs :: Chained(same, c))
            && Deduplicated(norm, fs) == MergeAll(cs) && |Deduplicated(norm, fs)| == |Novel(same, fs)|
            && forall i | 0 <= i < |cs| ::
                 && IsHighest(Severities(cs[i]), Deduplicated(norm, fs)[i].severity)
                 && IsMostSpecific(Kinds(cs[i]), Deduplicated(norm, fs)[i].kind)
  {
    var same := Similar(norm);
    SimilarIsSymmetric(norm);
    ClustersPartition(same, fs);
    HeadsAreNovel(same, fs);
    NovelDissimilar(same, fs);
    ClustersAreChained(same, fs);
    ClustersAreNonempty(same, fs);
    forall i | 0 <= i < |Clusters(same, fs)|
      ensures IsHighest(Severities(Clusters(same, fs)[i]), Deduplicated(norm, fs)[i].severity)
              && IsMostSpecific(Kinds(Clusters(same, fs)[i]), Deduplicated(norm, fs)[i].kind)
    {
      MergeIsWorst(Clusters(same, fs)[i]);
    }
  }

  lemma MergedMember(norm: Normalizer, cs: seq<seq<Finding>>, i: nat) returns (m: nat)
    requires AllNonempty(cs) && i < |cs|
    ensures m < |cs[i]| && SameQuotes(MergeAll(cs)[i], cs[i][m])
  {
    MergeConserves(cs[i]);
    var f :| f in cs[i] && SameQuotes(MergeAll(cs)[i], f);
    m :| 0 <= m < |cs[i]| && cs[i][m] == f;
  }

  /** If no finding bridges two clusters, no two outputs quote the same pair. */
  lemma OutputsAreDissimilar(norm: Normalizer, fs: seq<Finding>)
    requires BridgeFree(Similar(norm), fs)
    ensures Dissimilar(Similar(norm), Deduplicated(norm, fs))
  {
    var same, cs := Similar(norm), Clusters(Similar(norm), fs);
    SimilarIsSymmetric(norm);
    CohesiveIff(same, fs);
    ClustersAreNonempty(same, fs);
    var out := MergeAll(cs);
    forall i, j | 0 <= i < j < |out|
      ensures !same(out[i], out[j])
    {
      var m := MergedMember(norm, cs, i);
      var n := MergedMember(norm, cs, j);
      assert Apart(same, cs[i], cs[j]);
      assert !same(cs[i][m], cs[j][n]);
    }
  }

  lemma {:induction false} InOrderEmpty(order: seq<InconsistencyType>)
    ensures InOrder(order, {}) == []
  {
    if order != [] {
      InOrderEmpty(order[1..]);
    }
  }

  lemma SingletonMerge(f: Finding)
    ensures Merge([f]) == f.(mergedTypes := [])
  {
    assert Kinds([f]) == {f.kind};
    assert Kinds([f]) - {f.kind} == {};
    InOrderEmpty(SPECIFICITY);
  }

  /** A second pass keeps every finding exactly when the outputs of the first are pairwise dissimilar;
      it then changes nothing but the list of merged types, which it empties. */
  lemma SecondPass(norm: Normalizer, fs: seq<Finding>)
    ensures var out := Deduplicated(norm, fs);
            var again := Deduplicated(norm, out);
            && |again| <= |out|
            && (|again| == |out| <==> Dissimilar(Similar(norm), out))
            && (|again| == |out| ==> forall i | 0 <= i < |out| :: again[i] == out[i].(mergedTypes := []))
  {
    var same, out := Similar(norm), Deduplicated(norm, fs);
    SimilarIsSymmetric(norm);
    SingletonsIff(same, out);
    ClustersAreNonempty(same, out);
    if Dissimilar(same, out) {
      forall i | 0 <= i < |out|
        ensures Deduplicated(norm, out)[i] == out[i].(mergedTypes := [])
      {
        assert Deduplicated(norm, out)[i] == Merge([out[i]]);
        SingletonMerge(out[i]);
      }
    }
  }

  // ---- Without long prefixes: one finding for each pair of quotes --------------------------------

  function QuotesOf(norm: Normalizer, f: Finding): set<string> {
    {norm(f.quoteA), norm(f.quoteB)}
  }

  /** The unordered pair of normalised quotes of a finding. */
  function Pair(norm: Normalizer, f: Finding): multiset<string> {
    multiset{norm(f.quoteA), norm(f.quoteB)}
  }

  /** No quote of at least forty characters is a proper prefix of another quote. */
  ghost predicate PrefixFree(norm: Normalizer, fs: seq<Finding>) {
    forall f, g, q, r | f in fs && g in fs && q in QuotesOf(norm, f) && r in QuotesOf(norm, g) ::
      |q| >= MIN_PREFIX_LENGTH && q <= r ==> q == r
  }

  lemma SimilarIsPair(norm: Normalizer, fs: seq<Finding>, f: Finding, g: Finding)
    requires PrefixFree(norm, fs) && f in fs && g in fs
    ensures SamePair(norm, f, g) <==> Pair(norm, f) == Pair(norm, g)
  {
    forall q, r | q in QuotesOf(norm, f) && r in QuotesOf(norm, g)
      ensures SameNormal(q, r) <==> q == r
    {
      assert q <= r && |q| >= MIN_PREFIX_LENGTH ==> q == r;
      assert r <= q && |r| >= MIN_PREFIX_LENGTH ==> q == r;
    }
  }

  ghost predicate Keyed(same: (Finding, Finding) -> bool, key: Finding -> multiset<string>, fs: set<Finding>) {
    && Symmetric(same)
    && (forall f, g | f in fs && g in fs :: same(f, g) <==> key(f) == key(g))
    && (forall f, g :: SameQuotes(f, g) ==> key(f) == key(g))
  }

  /** What one report line must be, read off the set of findings alone. */
  ghost predicate ClassReport(key: Finding -> multiset<string>, fs: set<Finding>, p: multiset<string>,
                              k: InconsistencyType, s: Severity) {
    && (exists f :: f in fs && key(f) == p && f.kind == k)
    && (exists f :: f in fs && key(f) == p && f.severity == s)
    && (forall f | f in fs && key(f) == p :: Rank(k) <= Rank(f.kind) && SeverityRank(f.severity) <= SeverityRank(s))
  }

  ghost predicate Reported(key: Finding -> multiset<string>, out: seq<Finding>, p: multiset<string>,
                           k: InconsistencyType, s: Severity) {
    exists i :: 0 <= i < |out| && key(out[i]) == p && out[i].kind == k && out[i].severity == s
  }

  ghost function Elements(fs: seq<Finding>): set<Finding> {
    set f | f in fs
  }

  /** Cluster `i` holds exactly the findings of one key. */
  lemma ClusterIsClass(same: (Finding, Finding) -> bool, key: Finding -> multiset<string>, fs: seq<Finding>, i: nat)
    requires Keyed(same, key, Elements(fs)) && i < |Clusters(same, fs)|
    ensures var c := Clusters(same, fs)[i];
            c != [] && forall f :: f in c <==> f in fs && key(f) == key(c[0])
  {
    var cs := Clusters(same, fs);
    ClustersAreNonempty(same, fs);
    assert forall f :: f in fs <==> f in Elements(fs);
    TransitiveIsBridgeFree(same, fs);
    CohesiveIff(same, fs);
    MembersAreInputs(same, fs);
    var c := cs[i];
    assert c[0] in c && Tight(same, c);
    forall f | f in c
      ensures f in fs && key(f) == key(c[0])
    {
      var m :| 0 <= m < |c| && c[m] == f;
    }
    forall f | f in fs && key(f) == key(c[0])
      ensures f in c
    {
      var j :| 0 <= j < |cs| && f in cs[j];
      var m :| 0 <= m < |cs[j]| && cs[j][m] == f;
      assert same(c[0], cs[j][m]);
      assert !Apart(same, cs[i], cs[j]);
    }
  }

  lemma MergeIsReport(key: Finding -> multiset<string>, fs: set<Finding>, c: seq<Finding>)
    requires forall f, g :: SameQuotes(f, g) ==> key(f) == key(g)
    requires c != [] && forall f :: f in c <==> f in fs && key(f) == key(c[0])
    ensures key(Merge(c)) == key(c[0])
    ensures ClassReport(key, fs, key(c[0]), Merge(c).kind, Merge(c).severity)
  {
    MergeConserves(c);
    var o := Merge(c);
    var f :| f in c && SameQuotes(f, o) && f.kind == o.kind;
    var g :| g in c && g.severity == o.severity;
    assert f in fs && g in fs;
  }

  lemma OutputIsReport(same: (Finding, Finding) -> bool, key: Finding -> multiset<string>, fs: seq<Finding>, i: nat)
    requires Keyed(same, key, Elements(fs)) && AllNonempty(Clusters(same, fs)) && i < |Clusters(same, fs)|
    ensures var c := Clusters(same, fs)[i];
            var o := MergeAll(Clusters(same, fs))[i];
            key(o) == key(c[0]) && ClassReport(key, Elements(fs), key(o), o.kind, o.severity)
  {
    ClusterIsClass(same, key, fs, i);
    MergeIsReport(key, Elements(fs), Clusters(same, fs)[i]);
  }

  lemma ReportedBy(key: Finding -> multiset<string>, fs: set<Finding>, out: seq<Finding>, i: nat,
                   p: multiset<string>, k: InconsistencyType, s: Severity)
    requires i < |out| && key(out[i]) == p && ClassReport(key, fs, p, out[i].kind, out[i].severity)
    requires ClassReport(key, fs, p, k, s)
    ensures Reported(key, out, p, k, s)
  {
  }

  lemma ReportsAreKeyed(same: (Finding, Finding) -> bool, key: Finding -> multiset<string>, fs: seq<Finding>,
                        p: multiset<string>, k: InconsistencyType, s: Severity)
    requires Keyed(same, key, Elements(fs)) && AllNonempty(Clusters(same, fs))
    ensures Reported(key, MergeAll(Clusters(same, fs)), p, k, s) <==> ClassReport(key, Elements(fs), p, k, s)
  {
    var out := MergeAll(Clusters(same, fs));
    if Reported(key, out, p, k, s) {
      var i :| 0 <= i < |out| && key(out[i]) == p && out[i].kind == k && out[i].severity == s;
      OutputIsReport(same, key, fs, i);
    } else if ClassReport(key, Elements(fs), p, k, s) {
      var i := ClusterWith(same, key, fs, p, k, s);
      OutputIsReport(same, key, fs, i);
      ReportedBy(key, Elements(fs), out, i, p, k, s);
    }
  }

  lemma ClusterWith(same: (Finding, Finding) -> bool, key: Finding -> multiset<string>, fs: seq<Finding>,
                    p: multiset<string>, k: InconsistencyType, s: Severity) returns (i: nat)
    requires Keyed(same, key, Elements(fs)) && ClassReport(key, Elements(fs), p, k, s)
    ensures i < |Clusters(same, fs)| && Clusters(same, fs)[i] != [] && key(Clusters(same, fs)[i][0]) == p
  {
    var f :| f in Elements(fs) && key(f) == p && f.kind == k;
    i := ClusterOf(same, key, fs, f);
  }

  lemma ClusterOf(same: (Finding, Finding) -> bool, key: Finding -> multiset<string>, fs: seq<Finding>, f: Finding)
    returns (i: nat)
    requires Keyed(same, key, Elements(fs)) && f in fs
    ensures i < |Clusters(same, fs)| && Clusters(same, fs)[i] != [] && key(Clusters(same, fs)[i][0]) == key(f)
  {
    MembersAreInputs(same, fs);
    i :| 0 <= i < |Clusters(same, fs)| && f in Clusters(same, fs)[i];
    ClusterIsClass(same, key, fs, i);
  }

  function PairOf(norm: Normalizer): Finding -> multiset<string> {
    f => Pair(norm, f)
  }

  lemma SimilarIsPairOf(norm: Normalizer, fs: seq<Finding>, f: Finding, g: Finding)
    requires PrefixFree(norm, fs) && f in fs && g in fs
    ensures Similar(norm)(f, g) <==> PairOf(norm)(f) == PairOf(norm)(g)
  {
    SimilarIsPair(norm, fs, f, g);
  }

  lemma PrefixFreeIsKeyed(norm: Normalizer, fs: seq<Finding>)
    requires PrefixFree(norm, fs)
    ensures Keyed(Similar(norm), PairOf(norm), Elements(fs))
  {
    SimilarIsSymmetric(norm);
    var same, key := Similar(norm), PairOf(norm);
    forall f, g | f in Elements(fs) && g in Elements(fs)
      ensures same(f, g) <==> key(f) == key(g)
    {
      SimilarIsPairOf(norm, fs, f, g);
    }
  }

  /** Without long prefixes, no two lines are on the same pair of quotes. */
  lemma LinesAreDistinct(norm: Normalizer, fs: seq<Finding>, i: nat, j: nat)
    requires PrefixFree(norm, fs) && i < j < |Deduplicated(norm, fs)|
    ensures Pair(norm, Deduplicated(norm, fs)[i]) != Pair(norm, Deduplicated(norm, fs)[j])
  {
    var same, cs := Similar(norm), Clusters(Similar(norm), fs);
    PrefixFreeIsBridgeFree(norm, fs);
    SimilarIsSymmetric(norm);
    CohesiveIff(same, fs);
    ClustersAreNonempty(same, fs);
    MembersAreInputs(same, fs);
    var m := MergedMember(norm, cs, i);
    var n := MergedMember(norm, cs, j);
    assert cs[i][m] in cs[i] && cs[j][n] in cs[j];
    assert Apart(same, cs[i], cs[j]);
    assert !same(cs[i][m], cs[j][n]);
    SimilarIsPair(norm, fs, cs[i][m], cs[j][n]);
  }

  lemma PrefixFreeIsBridgeFree(norm: Normalizer, fs: seq<Finding>)
    requires PrefixFree(norm, fs)
    ensures BridgeFree(Similar(norm), fs)
  {
    SimilarIsSymmetric(norm);
    PrefixFreeIsKeyed(norm, fs);
    assert forall f :: f in fs ==> f in Elements(fs);
    assert TransitiveOn(Similar(norm), fs);
    TransitiveIsBridgeFree(Similar(norm), fs);
  }

  /** `o` is High exactly when some finding on its pair of quotes is, and so on down, types likewise. */
  ghost predicate IsWorstOnItsPair(norm: Normalizer, fs: seq<Finding>, o: Finding) {
    && IsHighest(set f | f in fs && Pair(norm, f) == Pair(norm, o) :: f.severity, o.severity)
    && IsMostSpecific(set f | f in fs && Pair(norm, f) == Pair(norm, o) :: f.kind, o.kind)
  }

  lemma LinesAreWorst(norm: Normalizer, fs: seq<Finding>)
    requires PrefixFree(norm, fs)
    ensures forall o | o in Deduplicated(norm, fs) :: IsWorstOnItsPair(norm, fs, o)
  {
    var same, key, out := Similar(norm), PairOf(norm), Deduplicated(norm, fs);
    PrefixFreeIsKeyed(norm, fs);
    ClustersAreNonempty(same, fs);
    forall i | 0 <= i < |out|
      ensures IsWorstOnItsPair(norm, fs, out[i])
    {
      OutputIsReport(same, key, fs, i);
      ClassIsWorst(norm, fs, out[i]);
    }
  }

  lemma ClassIsWorst(norm: Normalizer, fs: seq<Finding>, o: Finding)
    requires ClassReport(PairOf(norm), Elements(fs), Pair(norm, o), o.kind, o.severity)
    ensures IsWorstOnItsPair(norm, fs, o)
  {
    var kinds := set f | f in fs && Pair(norm, f) == Pair(norm, o) :: f.kind;
    var severities := set f | f in fs && Pair(norm, f) == Pair(norm, o) :: f.severity;
    assert forall f :: f in fs <==> f in Elements(fs);
    assert forall f :: PairOf(norm)(f) == Pair(norm, f);
    HighestIs(severities, o.severity);
    MostSpecificIs(kinds, o.kind);
  }

  /** Without long prefixes, the report has exactly one line for each pair of quotes, with the most specific type
      and the highest severity met on that pair. */
  lemma ReportsAreClasses(norm: Normalizer, fs: seq<Finding>, p: multiset<string>, k: InconsistencyType, s: Severity)
    requires PrefixFree(norm, fs)
    ensures Reported(PairOf(norm), Deduplicated(norm, fs), p, k, s)
            <==> ClassReport(PairOf(norm), Elements(fs), p, k, s)
    ensures forall i, j | 0 <= i < j < |Deduplicated(norm, fs)| ::
              Pair(norm, Deduplicated(norm, fs)[i]) != Pair(norm, Deduplicated(norm, fs)[j])
    ensures forall o | o in Deduplicated(norm, fs) :: IsWorstOnItsPair(norm, fs, o)
  {
    LinesAreWorst(norm, fs);
    forall i, j | 0 <= i < j < |Deduplicated(norm, fs)|
      ensures Pair(norm, Deduplicated(norm, fs)[i]) != Pair(norm, Deduplicated(norm, fs)[j])
    {
      LinesAreDistinct(norm, fs, i, j);
    }
    PrefixFreeIsKeyed(norm, fs);
    ClustersAreNonempty(Similar(norm), fs);
    ReportsAreKeyed(Similar(norm), PairOf(norm), fs, p, k, s);
  }

  /** The report depends neither on the order of the findings nor on their repetition, and a second pass
      keeps it. */
  lemma ReportIgnoresOrder(norm: Normalizer, fs: seq<Finding>, gs: seq<Finding>)
    requires PrefixFree(norm, fs) && Elements(fs) == Elements(gs)
    ensures forall p, k, s :: Reported(PairOf(norm), Deduplicated(norm, fs), p, k, s)
                              <==> Reported(PairOf(norm), Deduplicated(norm, gs), p, k, s)
    ensures |Deduplicated(norm, Deduplicated(norm, fs))| == |Deduplicated(norm, fs)|
  {
    assert PrefixFree(norm, gs) by {
      assert forall f :: f in gs ==> f in Elements(gs);
      assert forall f :: f in Elements(fs) ==> f in fs;
    }
    forall p, k, s
      ensures Reported(PairOf(norm), Deduplicated(norm, fs), p, k, s)
              <==> Reported(PairOf(norm), Deduplicated(norm, gs), p, k, s)
    {
      ReportsAreClasses(norm, fs, p, k, s);
      ReportsAreClasses(norm, gs, p, k, s);
    }
    PrefixFreeIsBridgeFree(norm, fs);
    OutputsAreDissimilar(norm, fs);
    SecondPass(norm, fs);
  }

  // ---- With them, the same pair can be reported twice --------------------------------------------

  /** A word of plain letters and digits is its own normal form. */
  ghost predicate FixesPlainWords(norm: Normalizer) {
    forall w: string | w != [] && (forall i | 0 <= i < |w| :: IsAlnum(w[i])) :: norm(w) == w
  }

  /** Two full sentences of one length, their common truncation, and another quote. */
  lemma Truncations(norm: Normalizer, n: nat) returns (p: string, x: string, y: string, q: string)
    requires FixesPlainWords(norm) && 0 < n < MIN_PREFIX_LENGTH
    ensures |q| == n && forall i | 0 <= i < |q| :: q[i] == 'd'
    ensures |p| == MIN_PREFIX_LENGTH && forall i | 0 <= i < |p| :: p[i] == 'a'
    ensures x == p + "b" && y == p + "c"
    ensures SameQuote(norm, p, x) && SameQuote(norm, y, p) && SameQuote(norm, q, q)
    ensures !SameQuote(norm, y, x) && !SameQuote(norm, y, q)
  {
    p := seq(MIN_PREFIX_LENGTH, _ => 'a');
    x, y, q := p + "b", p + "c", seq(n, _ => 'd');
    assert x[40] == 'b' && y[40] == 'c';
    assert p <= x && p <= y;
    assert q[0] == 'd';
  }

  /** The truncation pulls a later copy of the second sentence into the cluster of the first, and both outputs quote the
      very same pair. */
  lemma SamePairReportedTwice(norm: Normalizer) returns (fs: seq<Finding>)
    requires FixesPlainWords(norm)
    ensures var out := Deduplicated(norm, fs);
            |out| == 2 && SameQuotes(out[0], out[1])
  {
    var p, x, y, q := Truncations(norm, 1);
    fs := TwiceReported(norm, p, x, y, q);
  }

  lemma TwiceReported(norm: Normalizer, p: string, x: string, y: string, q: string) returns (fs: seq<Finding>)
    requires SameQuote(norm, p, x) && SameQuote(norm, y, p) && SameQuote(norm, q, q)
    requires !SameQuote(norm, y, x) && !SameQuote(norm, y, q)
    ensures |fs| == 4 && forall f | f in fs :: f.quoteA in {p, x, y} && f.quoteB == q
    ensures var out := Deduplicated(norm, fs);
            |out| == 2 && SameQuotes(out[0], out[1])
  {
    var a := Finding(Internal, x, q, "", Low, []);
    var b := Finding(Internal, y, q, "", Low, []);
    var c := Finding(Internal, p, q, "", Low, []);
    var d := Finding(Arithmetic, y, q, "", Low, []);
    fs := [a, b, c, d];
    BridgingRun(Similar(norm), a, b, c, d);
    MergedKinds(a, c, d, b);
    ClustersAreNonempty(Similar(norm), fs);
  }

  lemma MergedKinds(a: Finding, c: Finding, d: Finding, b: Finding)
    requires Rank(d.kind) < Rank(a.kind) && a.kind == c.kind
    ensures SameQuotes(Merge([a, c, d]), d) && SameQuotes(Merge([b]), b)
  {
    assert [a, c, d][..2] == [a, c] && [a, c][..1] == [a];
    assert MostSpecific([a]) == a && MostSpecific([a, c]) == a;
  }
}
