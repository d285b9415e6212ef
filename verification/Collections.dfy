// Facts about sequences and sets that several models use.

module Collections {

  lemma ConcatAssoc<T>(a: seq<T>, b: seq<T>, c: seq<T>)
    ensures a + b + c == a + (b + c)
  {
  }

  lemma LastOff<T>(a: seq<T>, b: seq<T>)
    requires b != []
    ensures a + b == a + b[..|b| - 1] + [b[|b| - 1]]
  {
  }

  lemma RepeatCounts<T>(s: seq<T>, i: nat, j: nat)
    requires i < j < |s|
    ensures s[i] == s[j] ==> multiset(s)[s[i]] >= 2
  {
    assert s == s[..i] + [s[i]] + s[i + 1..j] + [s[j]] + s[j + 1..];
  }

  lemma SubsetSize<T>(a: set<T>, b: set<T>)
    requires a <= b
    ensures |a| <= |b|
  {
    assert b == a + (b - a);
  }

  /** The map has exactly these keys, and every entry is as it should be. */
  ghost predicate Filled<K(!new), V>(ok: (K, V) -> bool, keys: seq<K>, m: map<K, V>) {
    (forall k :: k in m <==> k in keys) && forall k | k in m :: ok(k, m[k])
  }

  lemma OneMoreFilled<K(!new), V>(ok: (K, V) -> bool, keys: seq<K>, i: nat, m: map<K, V>, v: V)
    requires i < |keys| && Filled(ok, keys[..i], m) && ok(keys[i], v)
    ensures Filled(ok, keys[..i + 1], m[keys[i] := v])
  {
    assert keys[..i + 1] == keys[..i] + [keys[i]];
  }
}
