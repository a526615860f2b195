/** The map a sequence of Map.put(key, value) calls builds from an empty map: a later pair for
    the same key overwrites an earlier one. */
module PairMaps {

  function MapOfPairs<K, V>(ps: seq<(K, V)>): map<K, V>
    decreases |ps|
  {
    if ps == [] then map[]
    else MapOfPairs(ps[..|ps| - 1])[ps[|ps| - 1].0 := ps[|ps| - 1].1]
  }

  /** Putting one more pair updates the map at that key. */
  lemma MapOfPairsSnoc<K, V>(ps: seq<(K, V)>, p: (K, V))
    ensures MapOfPairs(ps + [p]) == MapOfPairs(ps)[p.0 := p.1]
  {
    assert (ps + [p])[..|ps|] == ps;
  }

  /** i is the last position of the sequence that carries key k. */
  ghost predicate LastWith<K, V>(ps: seq<(K, V)>, k: K, i: int)
  {
    0 <= i < |ps| && ps[i].0 == k && forall j :: i < j < |ps| ==> ps[j].0 != k
  }

  /** A key is present exactly when some pair carries it. */
  lemma {:induction false} MapOfPairsDomain<K, V>(ps: seq<(K, V)>, k: K)
    ensures k in MapOfPairs(ps) <==> exists i :: 0 <= i < |ps| && ps[i].0 == k
    decreases |ps|
  {
    if ps != [] {
      var n := |ps| - 1;
      var init := ps[..n];
      MapOfPairsDomain(init, k);
      if ps[n].0 != k && exists i :: 0 <= i < |ps| && ps[i].0 == k {
        var i :| 0 <= i < |ps| && ps[i].0 == k;
        assert init[i].0 == k;
      }
    }
  }

  /** The value of a key is the one of the last pair that carries it. */
  lemma {:induction false} MapOfPairsLastWins<K, V>(ps: seq<(K, V)>, k: K, i: int)
    requires LastWith(ps, k, i)
    ensures k in MapOfPairs(ps) && MapOfPairs(ps)[k] == ps[i].1
    decreases |ps|
  {
    var n := |ps| - 1;
    if i < n {
      var init := ps[..n];
      assert LastWith(init, k, i);
      MapOfPairsLastWins(init, k, i);
    }
  }

  /** Putting pairs with distinct keys that agree with m on every key of m rebuilds m. */
  lemma MapOfPairsOfDistinct<K, V>(ps: seq<(K, V)>, m: map<K, V>)
    requires forall i, j :: 0 <= i < j < |ps| ==> ps[i].0 != ps[j].0
    requires forall i :: 0 <= i < |ps| ==> ps[i].0 in m && m[ps[i].0] == ps[i].1
    requires forall k :: k in m ==> exists i :: 0 <= i < |ps| && ps[i].0 == k
    ensures MapOfPairs(ps) == m
  {
    var r := MapOfPairs(ps);
    forall k | k in m
      ensures k in r && r[k] == m[k]
    {
      MapOfPairsDomain(ps, k);
      var i :| 0 <= i < |ps| && ps[i].0 == k;
      assert LastWith(ps, k, i);
      MapOfPairsLastWins(ps, k, i);
    }
    forall k | k in r
      ensures k in m
    {
      MapOfPairsDomain(ps, k);
    }
  }
}
