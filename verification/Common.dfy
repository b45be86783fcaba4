/** Shared vocabulary: optional values, bytes, and content digests. */
module Common {
  datatype Option<+T> = None | Some(value: T)

  datatype Result<+T, +E> = Ok(value: T) | Err(error: E)

  newtype byte = x: int | 0 <= x < 256

  type Bytes = seq<byte>

  /** SHA-256 taken as injective: a digest is told apart exactly by the bytes it was computed from. */
  datatype Digest = Sha256(preimage: Bytes)

  /** Python's `table.get(key)`. */
  function Lookup<K, V>(m: map<K, V>, k: K): Option<V> {
    if k in m then Some(m[k]) else None
  }

  /** Python's `table[key] = value`, or `table.pop(key, None)` when there is no value. */
  function Put<K, V>(m: map<K, V>, k: K, v: Option<V>): map<K, V> {
    match v
    case Some(x) => m[k := x]
    case None => m - {k}
  }

  lemma PutBack<K, V>(m: map<K, V>, k: K)
    ensures Put(m, k, Lookup(m, k)) == m
  {
  }

  lemma PutThenLookup<K, V>(m: map<K, V>, k: K, v: Option<V>)
    ensures Lookup(Put(m, k, v), k) == v
    ensures forall q :: q != k ==> Lookup(Put(m, k, v), q) == Lookup(m, q)
  {
  }

  lemma FirstIsMember<T>(xs: seq<T>)
    ensures xs != [] ==> xs[0] in xs
  {
  }

  lemma SameLookupsSameMap<K(!new), V>(a: map<K, V>, b: map<K, V>)
    requires forall k :: Lookup(a, k) == Lookup(b, k)
    ensures a == b
  {
    forall k ensures (k in a <==> k in b) && (k in a ==> a[k] == b[k]) {
      assert Lookup(a, k) == Lookup(b, k);
    }
  }

  lemma Regroup<T>(a: seq<T>, b: seq<T>, c: seq<T>)
    ensures (a + b) + c == a + (b + c)
  {
  }

  /** Cutting a string in two steps. */
  lemma CutTwice<T>(s: seq<T>, n: nat, k: nat, rest: seq<T>)
    requires n <= k <= |s| && rest == s[n..]
    ensures s == s[..n] + rest && s[..k] == s[..n] + rest[..k - n] && s[k..] == rest[k - n..]
  {
  }

  /** Concatenation of a list of lists. */
  function Flatten<T>(xss: seq<seq<T>>): seq<T> {
    if xss == [] then [] else xss[0] + Flatten(xss[1..])
  }

  lemma {:induction false} FlattenAppend<T>(xss: seq<seq<T>>, yss: seq<seq<T>>)
    ensures Flatten(xss + yss) == Flatten(xss) + Flatten(yss)
  {
    if xss == [] {
      assert xss + yss == yss;
    } else {
      assert (xss + yss)[1..] == xss[1..] + yss;
      FlattenAppend(xss[1..], yss);
    }
  }
}
