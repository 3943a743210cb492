/** Greedy clustering, as `deduplicate` does it: each element joins the first cluster holding a similar
    member, or starts a new one. Nothing here assumes that similarity is transitive. */
module Clustering {

  ghost predicate Symmetric<T(!new)>(same: (T, T) -> bool) {
    forall x, y :: same(x, y) == same(y, x)
  }

  predicate Matches<T>(same: (T, T) -> bool, x: T, cluster: seq<T>) {
    exists i | 0 <= i < |cluster| :: same(x, cluster[i])
  }

  /** Index of the first cluster `x` matches, or the number of clusters. */
  function FirstMatch<T>(same: (T, T) -> bool, x: T, clusters: seq<seq<T>>): (k: nat)
    ensures k <= |clusters|
    ensures forall j | 0 <= j < k :: !Matches(same, x, clusters[j])
    ensures k < |clusters| ==> Matches(same, x, clusters[k])
  {
    if clusters == [] || Matches(same, x, clusters[0]) then 0 else 1 + FirstMatch(same, x, clusters[1..])
  }

  function Place<T>(same: (T, T) -> bool, x: T, clusters: seq<seq<T>>): seq<seq<T>> {
    var k := FirstMatch(same, x, clusters);
    if k < |clusters| then clusters[k := clusters[k] + [x]] else clusters + [[x]]
  }

  function Clusters<T>(same: (T, T) -> bool, xs: seq<T>): seq<seq<T>> {
    if xs == [] then [] else Place(same, xs[|xs| - 1], Clusters(same, xs[..|xs| - 1]))
  }

  // ---- Partition -------------------------------------------------------------------------------

  function Flatten<T>(xss: seq<seq<T>>): seq<T> {
    if xss == [] then [] else Flatten(xss[..|xss| - 1]) + xss[|xss| - 1]
  }

  lemma {:induction false} FlattenUpdate<T>(xss: seq<seq<T>>, k: nat, x: T)
    requires k < |xss|
    ensures multiset(Flatten(xss[k := xss[k] + [x]])) == multiset(Flatten(xss)) + multiset{x}
  {
    var last := |xss| - 1;
    var yss := xss[k := xss[k] + [x]];
    if k < last {
      assert yss[..last] == xss[..last][k := xss[k] + [x]];
      FlattenUpdate(xss[..last], k, x);
    } else {
      assert yss[..last] == xss[..last];
    }
  }

  /** Every element goes to exactly one cluster. */
  lemma {:induction false} ClustersPartition<T>(same: (T, T) -> bool, xs: seq<T>)
    ensures multiset(Flatten(Clusters(same, xs))) == multiset(xs)
  {
    if xs != [] {
      var r, x := xs[..|xs| - 1], xs[|xs| - 1];
      assert xs == r + [x];
      ClustersPartition(same, r);
      var cs := Clusters(same, r);
      var k := FirstMatch(same, x, cs);
      if k < |cs| {
        FlattenUpdate(cs, k, x);
      } else {
        assert (cs + [[x]])[..|cs|] == cs;
      }
    }
  }

  // ---- Heads and chains ------------------------------------------------------------------------

  /** The elements similar to no earlier one, in order. */
  function Novel<T>(same: (T, T) -> bool, xs: seq<T>): seq<T> {
    if xs == [] then []
    else
      var r, x := xs[..|xs| - 1], xs[|xs| - 1];
      Novel(same, r) + if Matches(same, x, r) then [] else [x]
  }

  ghost predicate AllNonempty<T>(cs: seq<seq<T>>) {
    forall i | 0 <= i < |cs| :: cs[i] != []
  }

  ghost function Heads<T>(cs: seq<seq<T>>): seq<T>
    requires AllNonempty(cs)
  {
    seq(|cs|, i requires 0 <= i < |cs| => cs[i][0])
  }

  /** Every member but the first is similar to an earlier member of its cluster. */
  ghost predicate Chained<T>(same: (T, T) -> bool, cluster: seq<T>) {
    forall k | 1 <= k < |cluster| :: Matches(same, cluster[k], cluster[..k])
  }

  lemma {:induction false} ClustersAreNonempty<T>(same: (T, T) -> bool, xs: seq<T>)
    ensures AllNonempty(Clusters(same, xs))
  {
    if xs != [] {
      ClustersAreNonempty(same, xs[..|xs| - 1]);
    }
  }

  lemma {:induction false} MembersAreInputs<T>(same: (T, T) -> bool, xs: seq<T>)
    ensures forall i, m | 0 <= i < |Clusters(same, xs)| && m in Clusters(same, xs)[i] :: m in xs
    ensures forall x | x in xs :: exists i :: 0 <= i < |Clusters(same, xs)| && x in Clusters(same, xs)[i]
  {
    if xs != [] {
      var r, x := xs[..|xs| - 1], xs[|xs| - 1];
      assert xs == r + [x];
      MembersAreInputs(same, r);
      var cs, ds := Clusters(same, r), Clusters(same, xs);
      var k := FirstMatch(same, x, cs);
      assert ds == Place(same, x, cs);
      forall i, m | 0 <= i < |ds| && m in ds[i]
        ensures m in xs
      {
        assert m == x || (i < |cs| && m in cs[i]);
      }
      forall y | y in xs
        ensures exists i :: 0 <= i < |ds| && y in ds[i]
      {
        if y in r {
          var i :| 0 <= i < |cs| && y in cs[i];
          assert y in ds[i];
        } else {
          assert x in ds[k];
        }
      }
    }
  }

  /** An element matches a cluster exactly when it is similar to some earlier element. */
  lemma MatchesSomeCluster<T>(same: (T, T) -> bool, x: T, xs: seq<T>)
    ensures FirstMatch(same, x, Clusters(same, xs)) < |Clusters(same, xs)| <==> Matches(same, x, xs)
  {
    MembersAreInputs(same, xs);
    var cs := Clusters(same, xs);
    var k := FirstMatch(same, x, cs);
    if k < |cs| {
      var i :| 0 <= i < |cs[k]| && same(x, cs[k][i]);
      assert cs[k][i] in cs[k];
      assert cs[k][i] in xs;
      var j :| 0 <= j < |xs| && xs[j] == cs[k][i];
    }
    if Matches(same, x, xs) {
      var j :| 0 <= j < |xs| && same(x, xs[j]);
      assert xs[j] in xs;
      var i :| 0 <= i < |cs| && xs[j] in cs[i];
      var n :| 0 <= n < |cs[i]| && cs[i][n] == xs[j];
      assert Matches(same, x, cs[i]);
    }
  }

  /** The first members of the clusters are the novel elements, in input order: one output for each. */
  lemma {:induction false} HeadsAreNovel<T>(same: (T, T) -> bool, xs: seq<T>)
    ensures AllNonempty(Clusters(same, xs))
    ensures Heads(Clusters(same, xs)) == Novel(same, xs)
  {
    ClustersAreNonempty(same, xs);
    if xs != [] {
      var r, x := xs[..|xs| - 1], xs[|xs| - 1];
      HeadsAreNovel(same, r);
      MatchesSomeCluster(same, x, r);
    }
  }

  lemma {:induction false} NovelDissimilar<T(!new)>(same: (T, T) -> bool, xs: seq<T>)
    requires Symmetric(same)
    ensures forall y | y in Novel(same, xs) :: y in xs
    ensures Dissimilar(same, Novel(same, xs))
  {
    if xs != [] {
      var r, x := xs[..|xs| - 1], xs[|xs| - 1];
      assert xs == r + [x];
      NovelDissimilar(same, r);
      var n := Novel(same, r);
      if !Matches(same, x, r) {
        forall i | 0 <= i < |n|
          ensures !same(n[i], x)
        {
          assert n[i] in r;
        }
      }
    }
  }

  ghost predicate Dissimilar<T>(same: (T, T) -> bool, ys: seq<T>) {
    forall i, j | 0 <= i < j < |ys| :: !same(ys[i], ys[j])
  }

  lemma {:induction false} ClustersAreChained<T>(same: (T, T) -> bool, xs: seq<T>)
    ensures forall c | c in Clusters(same, xs) :: Chained(same, c)
  {
    if xs != [] {
      var r, x := xs[..|xs| - 1], xs[|xs| - 1];
      ClustersAreChained(same, r);
      var cs := Clusters(same, r);
      var k := FirstMatch(same, x, cs);
      if k < |cs| {
        ChainExtends(same, cs[k], x);
      }
    }
  }

  lemma ChainExtends<T>(same: (T, T) -> bool, c: seq<T>, x: T)
    requires Chained(same, c) && Matches(same, x, c)
    ensures Chained(same, c + [x])
  {
    var d := c + [x];
    forall k | 1 <= k < |d|
      ensures Matches(same, d[k], d[..k])
    {
      if k < |c| {
        assert d[..k] == c[..k];
      } else {
        assert d[..k] == c;
      }
    }
  }

  // ---- When similar elements always end up together ---------------------------------------------

  /** Members of different clusters are dissimilar. */
  ghost predicate Cohesive<T>(same: (T, T) -> bool, cs: seq<seq<T>>) {
    forall i, j | 0 <= i < |cs| && 0 <= j < |cs| && i != j :: Apart(same, cs[i], cs[j])
  }

  ghost predicate Apart<T>(same: (T, T) -> bool, c: seq<T>, d: seq<T>) {
    forall m, n | 0 <= m < |c| && 0 <= n < |d| :: !same(c[m], d[n])
  }

  /** `x` is similar to members of two clusters: the scan stops at the first and forgets the second. */
  ghost predicate Bridges<T>(same: (T, T) -> bool, x: T, cs: seq<seq<T>>) {
    exists i, j :: 0 <= i < j < |cs| && Matches(same, x, cs[i]) && Matches(same, x, cs[j])
  }

  /** No element of `xs`, on arrival, is similar to members of two clusters. */
  ghost predicate BridgeFree<T>(same: (T, T) -> bool, xs: seq<T>) {
    forall n | 0 <= n < |xs| :: !Bridges(same, xs[n], Clusters(same, xs[..n]))
  }

  lemma ApartSnoc<T(!new)>(same: (T, T) -> bool, c: seq<T>, x: T, d: seq<T>)
    requires Symmetric(same)
    ensures Apart(same, c + [x], d) <==> Apart(same, c, d) && !Matches(same, x, d)
    ensures Apart(same, d, c + [x]) <==> Apart(same, d, c) && !Matches(same, x, d)
  {
    var e := c + [x];
    assert e[|c|] == x && forall m | 0 <= m < |c| :: e[m] == c[m];
    if i :| 0 <= i < |d| && same(x, d[i]) {
      assert same(e[|c|], d[i]) && same(d[i], e[|c|]);
    }
    if m, n :| 0 <= m < |c| && 0 <= n < |d| && same(c[m], d[n]) {
      assert same(e[m], d[n]);
    }
    if m, n :| 0 <= m < |d| && 0 <= n < |c| && same(d[m], c[n]) {
      assert same(d[m], e[n]);
    }
  }

  /** Placing one element keeps cohesion exactly when the element bridges no two clusters. */
  lemma CohesiveStep<T(!new)>(same: (T, T) -> bool, x: T, cs: seq<seq<T>>)
    requires Symmetric(same)
    ensures Cohesive(same, Place(same, x, cs)) <==> Cohesive(same, cs) && !Bridges(same, x, cs)
  {
    var k, ds := FirstMatch(same, x, cs), Place(same, x, cs);
    forall i, j | 0 <= i < |ds| && 0 <= j < |ds| && i != j
      ensures Apart(same, ds[i], ds[j])
              <==> (i < |cs| && j < |cs| ==> Apart(same, cs[i], cs[j]))
                   && (i == k ==> !Matches(same, x, ds[j])) && (j == k ==> !Matches(same, x, ds[i]))
    {
      if i == k {
        if k < |cs| {
          ApartSnoc(same, cs[k], x, ds[j]);
        }
      } else if j == k {
        if k < |cs| {
          ApartSnoc(same, cs[k], x, ds[i]);
        }
      }
    }
    if i, j :| 0 <= i < j < |cs| && Matches(same, x, cs[i]) && Matches(same, x, cs[j]) {
      assert k < j && ds[j] == cs[j];
      assert !Apart(same, ds[k], ds[j]);
    }
    if Cohesive(same, ds) {
      forall i, j | 0 <= i < |cs| && 0 <= j < |cs| && i != j
        ensures Apart(same, cs[i], cs[j])
      {
        assert Apart(same, ds[i], ds[j]);
      }
    }
  }

  lemma BridgeFreeSnoc<T>(same: (T, T) -> bool, r: seq<T>, x: T)
    ensures BridgeFree(same, r + [x]) <==> BridgeFree(same, r) && !Bridges(same, x, Clusters(same, r))
  {
    var xs := r + [x];
    assert forall n | 0 <= n < |r| :: xs[..n] == r[..n] && xs[n] == r[n];
    assert xs[..|r|] == r && xs[|r|] == x;
    if BridgeFree(same, xs) {
      forall n | 0 <= n < |r|
        ensures !Bridges(same, r[n], Clusters(same, r[..n]))
      {
        assert !Bridges(same, xs[n], Clusters(same, xs[..n]));
      }
    }
  }

  /** Similar elements always share a cluster if and only if no element bridges two clusters on arrival. */
  lemma {:induction false} CohesiveIff<T(!new)>(same: (T, T) -> bool, xs: seq<T>)
    requires Symmetric(same)
    ensures Cohesive(same, Clusters(same, xs)) <==> BridgeFree(same, xs)
  {
    if xs != [] {
      var r, x := xs[..|xs| - 1], xs[|xs| - 1];
      assert xs == r + [x];
      CohesiveIff(same, r);
      CohesiveStep(same, x, Clusters(same, r));
      BridgeFreeSnoc(same, r, x);
    }
  }

  ghost predicate TransitiveOn<T(!new)>(same: (T, T) -> bool, xs: seq<T>) {
    forall x, y, z | x in xs && y in xs && z in xs && same(x, y) && same(y, z) :: same(x, z)
  }

  ghost predicate Tight<T>(same: (T, T) -> bool, c: seq<T>) {
    forall m, n | 0 <= m < n < |c| :: same(c[m], c[n])
  }

  ghost predicate AllTight<T>(same: (T, T) -> bool, cs: seq<seq<T>>) {
    forall i | 0 <= i < |cs| :: Tight(same, cs[i])
  }

  ghost predicate MembersIn<T>(cs: seq<seq<T>>, xs: seq<T>) {
    forall i, m | 0 <= i < |cs| && 0 <= m < |cs[i]| :: cs[i][m] in xs
  }

  lemma TransitivePrefix<T(!new)>(same: (T, T) -> bool, r: seq<T>, x: T)
    requires TransitiveOn(same, r + [x])
    ensures TransitiveOn(same, r) && x in r + [x] && MembersIn(Clusters(same, r), r + [x])
  {
    var cs := Clusters(same, r);
    assert forall y | y in r :: y in r + [x];
    MembersAreInputs(same, r);
    assert forall i, m | 0 <= i < |cs| && 0 <= m < |cs[i]| :: cs[i][m] in cs[i];
  }

  lemma PlaceKeepsTight<T(!new)>(same: (T, T) -> bool, x: T, cs: seq<seq<T>>, xs: seq<T>)
    requires Symmetric(same) && TransitiveOn(same, xs) && x in xs && MembersIn(cs, xs) && AllTight(same, cs)
    ensures AllTight(same, Place(same, x, cs))
  {
    var k := FirstMatch(same, x, cs);
  }

  /** Where similarity is transitive, clusters are its classes: similar inside, dissimilar across. */
  lemma {:induction false} TransitiveIsBridgeFree<T(!new)>(same: (T, T) -> bool, xs: seq<T>)
    requires Symmetric(same) && TransitiveOn(same, xs)
    ensures BridgeFree(same, xs) && AllTight(same, Clusters(same, xs))
  {
    if xs != [] {
      var r, x := xs[..|xs| - 1], xs[|xs| - 1];
      assert xs == r + [x];
      TransitivePrefix(same, r, x);
      TransitiveIsBridgeFree(same, r);
      CohesiveIff(same, r);
      BridgeFreeSnoc(same, r, x);
      PlaceKeepsTight(same, x, Clusters(same, r), xs);
    }
  }

  lemma DissimilarSnoc<T(!new)>(same: (T, T) -> bool, r: seq<T>, x: T)
    requires Symmetric(same)
    ensures Dissimilar(same, r + [x]) <==> Dissimilar(same, r) && !Matches(same, x, r)
  {
    var xs := r + [x];
    assert forall n | 0 <= n < |r| :: xs[n] == r[n];
    assert xs[|r|] == x;
    if Matches(same, x, r) {
      var i :| 0 <= i < |r| && same(x, r[i]);
      assert same(xs[i], xs[|r|]);
    }
  }

  /** On pairwise dissimilar elements the clustering is trivial, and only then does it keep them all. */
  lemma {:induction false} SingletonsIff<T(!new)>(same: (T, T) -> bool, xs: seq<T>)
    requires Symmetric(same)
    ensures |Clusters(same, xs)| <= |xs|
    ensures |Clusters(same, xs)| == |xs| <==> Dissimilar(same, xs)
    ensures Dissimilar(same, xs) ==> Clusters(same, xs) == seq(|xs|, i requires 0 <= i < |xs| => [xs[i]])
  {
    if xs != [] {
      var r, x := xs[..|xs| - 1], xs[|xs| - 1];
      assert xs == r + [x];
      SingletonsIff(same, r);
      MatchesSomeCluster(same, x, r);
      DissimilarSnoc(same, r, x);
    }
  }

  /** `c` ties `a` to `d`, so `d` joins the cluster of `a` and never meets `b`. */
  lemma BridgingRun<T>(same: (T, T) -> bool, a: T, b: T, c: T, d: T)
    requires !same(b, a) && same(c, a) && !same(d, a) && same(d, c)
    ensures Clusters(same, [a, b, c, d]) == [[a, c, d], [b]]
  {
    assert [a, b, c, d][..3] == [a, b, c] && [a, b, c][..2] == [a, b] && [a, b][..1] == [a] && [a][..0] == [];
    assert Clusters(same, [a]) == [[a]];
    assert Matches(same, b, [a]) == same(b, [a][0]);
    assert Clusters(same, [a, b]) == [[a], [b]];
    assert same(c, [a][0]);
    assert FirstMatch(same, c, [[a], [b]]) == 0;
    assert [a] + [c] == [a, c] && [[a], [b]][0 := [a] + [c]] == [[a, c], [b]];
    assert Clusters(same, [a, b, c]) == [[a, c], [b]];
    assert same(d, [a, c][1]);
    assert FirstMatch(same, d, [[a, c], [b]]) == 0;
    assert [a, c] + [d] == [a, c, d] && [[a, c], [b]][0 := [a, c] + [d]] == [[a, c, d], [b]];
  }
}
