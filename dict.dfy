/**
 * A Python dictionary filled by `d[k] = v` for each pair of a sequence, in order,
 * starting from `{}`: a later pair with the same key overwrites an earlier one.
 */
module Dict {

  /** The dictionary that assigning every pair of `pairs`, in order, leaves behind. */
  function FromPairs<K(==), V>(pairs: seq<(K, V)>): (d: map<K, V>)
    ensures d.Keys == set p | p in pairs :: p.0
  {
    if pairs == [] then map[]
    else
      var prefix, last := pairs[..|pairs| - 1], pairs[|pairs| - 1];
      assert pairs == prefix + [last];
      FromPairs(prefix)[last.0 := last.1]
  }

  /** Position `i` holds the last pair of `pairs` whose key is `pairs[i].0`. */
  ghost predicate IsLastFor<K, V>(pairs: seq<(K, V)>, i: int)
  {
    0 <= i < |pairs| && forall j :: i < j < |pairs| ==> pairs[j].0 != pairs[i].0
  }

  /** The dictionary is empty exactly when no pair was assigned. */
  lemma EmptyIffNoPairs<K, V>(pairs: seq<(K, V)>)
    ensures FromPairs(pairs) == map[] <==> pairs == []
  {
    if pairs != [] {
      assert pairs[0] in pairs;
      assert pairs[0].0 in FromPairs(pairs);
    }
  }

  /** The last assignment to a key is the one that stays. */
  lemma {:induction false} LastWins<K, V>(pairs: seq<(K, V)>, i: int)
    requires IsLastFor(pairs, i)
    ensures pairs[i].0 in FromPairs(pairs)
    ensures FromPairs(pairs)[pairs[i].0] == pairs[i].1
  {
    var n := |pairs| - 1;
    if i < n {
      var prefix := pairs[..n];
      assert IsLastFor(prefix, i) by {
        forall j | i < j < |prefix| ensures prefix[j].0 != prefix[i].0 {
          assert prefix[j] == pairs[j];
        }
      }
      LastWins(prefix, i);
    }
  }

  /** Every key of the dictionary holds the value of the last pair with that key. */
  lemma {:induction false} EveryKeyHasLastPair<K, V>(pairs: seq<(K, V)>, k: K)
    requires k in FromPairs(pairs)
    ensures exists i :: IsLastFor(pairs, i) && pairs[i].0 == k && FromPairs(pairs)[k] == pairs[i].1
  {
    var n := |pairs| - 1;
    if pairs[n].0 == k {
      assert IsLastFor(pairs, n);
    } else {
      var prefix := pairs[..n];
      assert pairs == prefix + [pairs[n]];
      EveryKeyHasLastPair(prefix, k);
      var i :| IsLastFor(prefix, i) && prefix[i].0 == k && FromPairs(prefix)[k] == prefix[i].1;
      assert IsLastFor(pairs, i);
    }
  }
}
