/** Texts joined by a bar before they are digested. */
module Joins {

  /** What follows and precedes the first bar. */
  lemma SplitOnce(a: string, x: string, b: string, y: string)
    requires '|' !in a && '|' !in b && a + "|" + x == b + "|" + y
    ensures a == b && x == y
  {
    var s := a + "|" + x;
    assert s[|a|] == '|' && s[|b|] == '|';
    assert forall k | 0 <= k < |a| :: s[k] == a[k] && a[k] in a;
    assert forall k | 0 <= k < |b| :: s[k] == b[k] && b[k] in b;
    assert a == s[..|a|] && b == s[..|b|];
    assert x == s[|a| + 1..] && y == s[|b| + 1..];
  }

  function Bars(s: string): nat {
    multiset(s)['|']
  }

  lemma BarsOfJoin(x: string, y: string)
    ensures Bars(x + "|" + y) == Bars(x) + 1 + Bars(y)
  {
    assert Bars("|") == 1;
  }

  lemma SplitAtBar(s: string) returns (x: string, y: string)
    requires '|' in s
    ensures s == x + "|" + y && |x| < |s|
  {
    var i :| 0 <= i < |s| && s[i] == '|';
    x, y := s[..i], s[i + 1..];
  }
}
