/** The keys of a dictionary filled by a loop. */
module Keys {

  /** The keys of a dictionary filled in the order of `keys`. */
  function Distinct(keys: seq<string>): seq<string> {
    if keys == [] then []
    else
      var d, k := Distinct(keys[..|keys| - 1]), keys[|keys| - 1];
      if k in keys[..|keys| - 1] then d else d + [k]
  }

  lemma {:induction false} DistinctKeys(keys: seq<string>)
    ensures forall k :: k in Distinct(keys) <==> k in keys
  {
    if keys != [] {
      DistinctKeys(keys[..|keys| - 1]);
      assert keys == keys[..|keys| - 1] + [keys[|keys| - 1]];
    }
  }

  /** Each key once, in the order in which they first come. */
  lemma {:induction false} DistinctOnce(keys: seq<string>, n: nat)
    requires n <= |keys|
    ensures Distinct(keys[..n]) <= Distinct(keys)
    ensures forall i, j | 0 <= i < j < |Distinct(keys)| :: Distinct(keys)[i] != Distinct(keys)[j]
    ensures n < |keys| && keys[n] !in keys[..n] ==>
              |Distinct(keys[..n])| < |Distinct(keys)| && Distinct(keys)[|Distinct(keys[..n])|] == keys[n]
  {
    if keys != [] {
      var r := keys[..|keys| - 1];
      DistinctKeys(r);
      if n < |keys| {
        DistinctOnce(r, n);
        assert r[..n] == keys[..n];
      } else {
        DistinctOnce(r, n - 1);
        assert keys[..n] == keys;
      }
    }
  }
}
