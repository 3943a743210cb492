/** When greedy clustering keeps similar elements together, told from the elements alone: chains of similar elements
    already seen, and no cluster. */
module Links {
  import opened Clustering

  ghost predicate Reflexive<T(!new)>(same: (T, T) -> bool) {
    forall x :: same(x, x)
  }

  /** At most `n` steps from one similar element of `r` to the next lead from place `i` to place `j`. */
  ghost predicate LinkedBy<T>(same: (T, T) -> bool, r: seq<T>, i: nat, j: nat, n: nat)
    requires i < |r| && j < |r|
    decreases n
  {
    i == j || (n > 0 && exists k: nat :: k < |r| && same(r[i], r[k]) && LinkedBy(same, r, k, j, n - 1))
  }

  ghost predicate Linked<T>(same: (T, T) -> bool, r: seq<T>, i: nat, j: nat)
    requires i < |r| && j < |r|
  {
    exists n: nat :: LinkedBy(same, r, i, j, n)
  }

  /** Whatever `x` is similar to is linked already. */
  ghost predicate ArrivesLinked<T>(same: (T, T) -> bool, r: seq<T>, x: T) {
    forall i: nat, j: nat | i < |r| && j < |r| && same(x, r[i]) && same(x, r[j]) :: Linked(same, r, i, j)
  }

  /** No element joins two earlier ones that no chain of earlier elements joined. */
  ghost predicate LinksClosed<T>(same: (T, T) -> bool, xs: seq<T>) {
    forall n | 0 <= n < |xs| :: ArrivesLinked(same, xs[..n], xs[n])
  }

  // ---- Links ----------------------------------------------------------------------------------------------------

  lemma {:induction false} LinkThen<T>(same: (T, T) -> bool, r: seq<T>, i: nat, j: nat, k: nat, n: nat, m: nat)
    requires i < |r| && j < |r| && k < |r| && LinkedBy(same, r, i, j, n) && LinkedBy(same, r, j, k, m)
    ensures LinkedBy(same, r, i, k, n + m)
    decreases n
  {
    if i == j {
      LinkLonger(same, r, i, k, m, n + m);
    } else {
      var l: nat :| l < |r| && same(r[i], r[l]) && LinkedBy(same, r, l, j, n - 1);
      LinkThen(same, r, l, j, k, n - 1, m);
    }
  }

  lemma {:induction false} LinkLonger<T>(same: (T, T) -> bool, r: seq<T>, i: nat, j: nat, n: nat, m: nat)
    requires i < |r| && j < |r| && LinkedBy(same, r, i, j, n) && n <= m
    ensures LinkedBy(same, r, i, j, m)
    decreases n
  {
    if i != j {
      var l: nat :| l < |r| && same(r[i], r[l]) && LinkedBy(same, r, l, j, n - 1);
      LinkLonger(same, r, l, j, n - 1, m - 1);
    }
  }

  lemma OneLink<T>(same: (T, T) -> bool, r: seq<T>, i: nat, j: nat)
    requires i < |r| && j < |r| && same(r[i], r[j])
    ensures LinkedBy(same, r, i, j, 1)
  {
    assert LinkedBy(same, r, j, j, 0);
  }

  lemma {:induction false} LinkBack<T(!new)>(same: (T, T) -> bool, r: seq<T>, i: nat, j: nat, n: nat)
    requires Symmetric(same) && i < |r| && j < |r| && LinkedBy(same, r, i, j, n)
    ensures LinkedBy(same, r, j, i, n)
    decreases n
  {
    if i != j {
      var l: nat :| l < |r| && same(r[i], r[l]) && LinkedBy(same, r, l, j, n - 1);
      LinkBack(same, r, l, j, n - 1);
      OneLink(same, r, l, i);
      LinkThen(same, r, j, l, i, n - 1, 1);
    }
  }

  // ---- Links and clusters -----------------------------------------------------------------------------------------

  /** Where clusters are apart, links do not leave them. */
  lemma {:induction false} LinkStays<T(!new)>(same: (T, T) -> bool, r: seq<T>, c: nat, i: nat, j: nat, n: nat)
    requires Cohesive(same, Clusters(same, r)) && c < |Clusters(same, r)|
    requires i < |r| && j < |r| && r[i] in Clusters(same, r)[c] && LinkedBy(same, r, i, j, n)
    ensures r[j] in Clusters(same, r)[c]
    decreases n
  {
    if i != j {
      var l: nat :| l < |r| && same(r[i], r[l]) && LinkedBy(same, r, l, j, n - 1);
      StepStays(same, r, c, i, l);
      LinkStays(same, r, c, l, j, n - 1);
    }
  }

  lemma MemberPlace<T(!new)>(same: (T, T) -> bool, r: seq<T>, c: nat, y: T) returns (i: nat)
    requires c < |Clusters(same, r)| && y in Clusters(same, r)[c]
    ensures i < |r| && r[i] == y
  {
    MembersAreInputs(same, r);
    assert y in r;
    i :| i < |r| && r[i] == y;
  }

  lemma StepStays<T(!new)>(same: (T, T) -> bool, r: seq<T>, c: nat, i: nat, l: nat)
    requires Cohesive(same, Clusters(same, r)) && c < |Clusters(same, r)|
    requires i < |r| && l < |r| && r[i] in Clusters(same, r)[c] && same(r[i], r[l])
    ensures r[l] in Clusters(same, r)[c]
  {
    var cs := Clusters(same, r);
    MembersAreInputs(same, r);
    assert r[l] in r;
    var m :| 0 <= m < |cs[c]| && cs[c][m] == r[i];
    forall d | 0 <= d < |cs| && d != c
      ensures r[l] !in cs[d]
    {
      assert Apart(same, cs[c], cs[d]);
      assert forall n | 0 <= n < |cs[d]| :: !same(cs[c][m], cs[d][n]);
    }
  }

  /** A member of a cluster is linked to the first one. */
  lemma {:induction false} MemberLinked<T(!new)>(same: (T, T) -> bool, r: seq<T>, c: seq<T>, m: nat, i: nat, f: nat)
    requires Reflexive(same) && Chained(same, c) && m < |c| && forall x | x in c :: x in r
    requires i < |r| && r[i] == c[m] && f < |r| && r[f] == c[0]
    ensures Linked(same, r, i, f)
    decreases m
  {
    if m == 0 {
      OneLink(same, r, i, f);
    } else {
      assert Matches(same, c[m], c[..m]);
      var l :| 0 <= l < m && same(c[m], c[l]);
      assert c[l] in c;
      var k :| 0 <= k < |r| && r[k] == c[l];
      MemberLinked(same, r, c, l, k, f);
      var n: nat :| LinkedBy(same, r, k, f, n);
      OneLink(same, r, i, k);
      LinkThen(same, r, i, k, f, 1, n);
    }
  }

  lemma ClusterLinked<T(!new)>(same: (T, T) -> bool, r: seq<T>, c: nat, i: nat, j: nat)
    requires Symmetric(same) && Reflexive(same) && c < |Clusters(same, r)| && i < |r| && j < |r|
    requires r[i] in Clusters(same, r)[c] && r[j] in Clusters(same, r)[c]
    ensures Linked(same, r, i, j)
  {
    var cs := Clusters(same, r);
    ClustersAreChained(same, r);
    MembersAreInputs(same, r);
    assert cs[c] in cs;
    var f := MemberPlace(same, r, c, cs[c][0]);
    var m :| 0 <= m < |cs[c]| && cs[c][m] == r[i];
    var l :| 0 <= l < |cs[c]| && cs[c][l] == r[j];
    MemberLinked(same, r, cs[c], m, i, f);
    MemberLinked(same, r, cs[c], l, j, f);
    var a: nat :| LinkedBy(same, r, i, f, a);
    var b: nat :| LinkedBy(same, r, j, f, b);
    LinkBack(same, r, j, f, b);
    LinkThen(same, r, i, f, j, a, b);
  }

  lemma NoBridgeLinks<T(!new)>(same: (T, T) -> bool, r: seq<T>, x: T)
    requires Symmetric(same) && Reflexive(same) && !Bridges(same, x, Clusters(same, r))
    ensures ArrivesLinked(same, r, x)
  {
    var cs := Clusters(same, r);
    MembersAreInputs(same, r);
    forall i: nat, j: nat | i < |r| && j < |r| && same(x, r[i]) && same(x, r[j])
      ensures Linked(same, r, i, j)
    {
      assert r[i] in r && r[j] in r;
      var c :| 0 <= c < |cs| && r[i] in cs[c];
      var d :| 0 <= d < |cs| && r[j] in cs[d];
      assert Matches(same, x, cs[c]) && Matches(same, x, cs[d]);
      ClusterLinked(same, r, c, i, j);
    }
  }

  /** Where clusters are apart, all that an element arriving linked is similar to lies in one of them. */
  lemma SimilarTogether<T(!new)>(same: (T, T) -> bool, r: seq<T>, x: T, c: nat, i: nat, j: nat)
    requires Cohesive(same, Clusters(same, r)) && ArrivesLinked(same, r, x) && c < |Clusters(same, r)|
    requires i < |r| && r[i] in Clusters(same, r)[c] && same(x, r[i]) && j < |r|
    ensures same(x, r[j]) ==> r[j] in Clusters(same, r)[c]
  {
    if same(x, r[j]) {
      var l: nat :| LinkedBy(same, r, i, j, l);
      LinkStays(same, r, c, i, j, l);
    }
  }

  lemma LinkedNoBridge<T(!new)>(same: (T, T) -> bool, r: seq<T>, x: T)
    requires Symmetric(same) && Reflexive(same) && Cohesive(same, Clusters(same, r)) && ArrivesLinked(same, r, x)
    ensures !Bridges(same, x, Clusters(same, r))
  {
    var cs := Clusters(same, r);
    forall c, d | 0 <= c < d < |cs| && Matches(same, x, cs[c])
      ensures !Matches(same, x, cs[d])
    {
      var m :| 0 <= m < |cs[c]| && same(x, cs[c][m]);
      var i := MemberPlace(same, r, c, cs[c][m]);
      forall n | 0 <= n < |cs[d]|
        ensures !same(x, cs[d][n])
      {
        var j := MemberPlace(same, r, d, cs[d][n]);
        SimilarTogether(same, r, x, c, i, j);
      }
    }
  }

  lemma LinksClosedSnoc<T>(same: (T, T) -> bool, r: seq<T>, x: T)
    ensures LinksClosed(same, r + [x]) <==> LinksClosed(same, r) && ArrivesLinked(same, r, x)
  {
    var xs := r + [x];
    assert forall n | 0 <= n < |r| :: xs[..n] == r[..n] && xs[n] == r[n];
    assert xs[..|r|] == r && xs[|r|] == x;
    if LinksClosed(same, xs) {
      forall n | 0 <= n < |r|
        ensures ArrivesLinked(same, r[..n], r[n])
      {
        assert ArrivesLinked(same, xs[..n], xs[n]);
      }
    }
  }

  /** No element bridges two clusters, if and only if links are closed. */
  lemma {:induction false} LinksClosedIff<T(!new)>(same: (T, T) -> bool, xs: seq<T>)
    requires Symmetric(same) && Reflexive(same)
    ensures LinksClosed(same, xs) <==> BridgeFree(same, xs)
  {
    if xs != [] {
      var r, x := xs[..|xs| - 1], xs[|xs| - 1];
      assert xs == r + [x];
      LinksClosedIff(same, r);
      LinksClosedSnoc(same, r, x);
      BridgeFreeSnoc(same, r, x);
      if BridgeFree(same, r) {
        CohesiveIff(same, r);
        if ArrivesLinked(same, r, x) {
          LinkedNoBridge(same, r, x);
        } else if !Bridges(same, x, Clusters(same, r)) {
          NoBridgeLinks(same, r, x);
        }
      }
    }
  }

  /** Similar elements always share a cluster, if and only if links are closed. */
  lemma TogetherIff<T(!new)>(same: (T, T) -> bool, xs: seq<T>)
    requires Symmetric(same) && Reflexive(same)
    ensures Cohesive(same, Clusters(same, xs)) <==> LinksClosed(same, xs)
  {
    CohesiveIff(same, xs);
    LinksClosedIff(same, xs);
  }

  // ---- Only similarity matters -------------------------------------------------------------------------------------

  /** The two lists have the same similarities, place by place. */
  ghost predicate Alike<T>(same: (T, T) -> bool, xs: seq<T>, ys: seq<T>) {
    |xs| == |ys| && forall i, j | 0 <= i < |xs| && 0 <= j < |xs| :: same(xs[i], xs[j]) == same(ys[i], ys[j])
  }

  lemma {:induction false} AlikeLinks<T>(same: (T, T) -> bool, r: seq<T>, s: seq<T>, i: nat, j: nat, n: nat)
    requires Alike(same, r, s) && i < |r| && j < |r| && LinkedBy(same, r, i, j, n)
    ensures LinkedBy(same, s, i, j, n)
    decreases n
  {
    if i != j {
      var l: nat :| l < |r| && same(r[i], r[l]) && LinkedBy(same, r, l, j, n - 1);
      AlikeLinks(same, r, s, l, j, n - 1);
      assert same(s[i], s[l]);
    }
  }

  lemma AlikeClosed<T>(same: (T, T) -> bool, xs: seq<T>, ys: seq<T>)
    requires Alike(same, xs, ys) && LinksClosed(same, xs)
    ensures LinksClosed(same, ys)
  {
    forall n | 0 <= n < |ys|
      ensures ArrivesLinked(same, ys[..n], ys[n])
    {
      assert ArrivesLinked(same, xs[..n], xs[n]);
      forall i: nat, j: nat | i < n && j < n && same(ys[n], ys[i]) && same(ys[n], ys[j])
        ensures Linked(same, ys[..n], i, j)
      {
        assert same(xs[n], xs[..n][i]) && same(xs[n], xs[..n][j]);
        var l: nat :| LinkedBy(same, xs[..n], i, j, l);
        AlikeLinks(same, xs[..n], ys[..n], i, j, l);
      }
    }
  }
}
