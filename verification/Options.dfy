/** A value that may be missing, and maps read as total functions. */
module Options {
  datatype Option<+T> = None | Some(value: T)

  function Get<K, V>(m: map<K, V>, k: K): Option<V> {
    if k in m then Some(m[k]) else None
  }

  lemma SameLookup<K, V>(m: map<K, V>, n: map<K, V>)
    requires forall k :: Get(m, k) == Get(n, k)
    ensures m == n
  {
    forall k ensures k in m <==> k in n {
      assert Get(m, k) == Get(n, k);
    }
    forall k | k in m ensures m[k] == n[k] {
      assert Get(m, k) == Get(n, k);
    }
  }

  /** A list that was read, behind what was read before it. */
  function Prepend<T>(s: seq<T>, o: Option<(seq<T>, nat)>): Option<(seq<T>, nat)> {
    match o
    case None => None
    case Some((rest, j)) => Some((s + rest, j))
  }

  lemma PrependNone<T>(o: Option<(seq<T>, nat)>)
    ensures Prepend([], o) == o
  {
    match o
    case None =>
    case Some((rest, j)) => assert [] + rest == rest;
  }

  lemma PrependOne<T>(s: seq<T>, x: T, o: Option<(seq<T>, nat)>)
    ensures Prepend(s, Prepend([x], o)) == Prepend(s + [x], o)
  {
    match o
    case None =>
    case Some((rest, j)) => assert s + ([x] + rest) == s + [x] + rest;
  }
}
