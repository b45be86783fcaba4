/** The order Python gives byte strings. */
module ByteOrder {
  import opened Common
  import opened Paths

  function AsText(b: Bytes): string {
    seq(|b|, i requires 0 <= i < |b| => (b[i] as int) as char)
  }

  predicate Less(a: Bytes, b: Bytes) {
    Precedes(AsText(a), AsText(b))
  }

  /** A proper prefix comes first, otherwise the smaller byte where the two first differ. */
  lemma LessIff(a: Bytes, b: Bytes)
    ensures Less(a, b) <==> a < b || exists i :: 0 <= i < |a| && i < |b| && a[..i] == b[..i] && a[i] < b[i]
  {
    var x, y := AsText(a), AsText(b);
    PrecedesIff(x, y);
    assert x < y <==> a < b by { SamePrefix(a, b, |a|); }
    if i :| 0 <= i < |x| && i < |y| && x[..i] == y[..i] && x[i] < y[i] {
      SamePrefix(a, b, i);
      assert a[i] < b[i];
    }
    if i :| 0 <= i < |a| && i < |b| && a[..i] == b[..i] && a[i] < b[i] {
      SamePrefix(a, b, i);
      assert x[i] < y[i];
    }
  }

  lemma SamePrefix(a: Bytes, b: Bytes, n: nat)
    requires n <= |a|
    ensures n <= |b| ==> (AsText(a)[..n] == AsText(b)[..n] <==> a[..n] == b[..n])
  {
    if n <= |b| && AsText(a)[..n] == AsText(b)[..n] {
      forall i | 0 <= i < n ensures a[i] == b[i] {
        assert AsText(a)[..n][i] == AsText(b)[..n][i];
      }
    }
  }

  lemma LessIsTotal(a: Bytes, b: Bytes)
    ensures a == b || Less(a, b) || Less(b, a)
    ensures !(Less(a, b) && Less(b, a))
  {
    PrecedesIsTotal(AsText(a), AsText(b));
    if AsText(a) == AsText(b) {
      forall i: nat | i < |a| ensures a[i] == b[i] {
        assert AsText(a)[i] == AsText(b)[i];
      }
    }
  }

  lemma LessIsTransitive(a: Bytes, b: Bytes, c: Bytes)
    requires Less(a, b) && Less(b, c)
    ensures Less(a, c)
  {
    PrecedesIsTransitive(AsText(a), AsText(b), AsText(c));
  }

  predicate AscendingBytes(keys: seq<Bytes>) {
    forall i, j :: 0 <= i < j < |keys| ==> Less(keys[i], keys[j])
  }

  /** The least element of a set. */
  method Least(s: set<Bytes>) returns (least: Bytes)
    requires s != {}
    ensures least in s && forall b :: b in s && b != least ==> Less(least, b)
  {
    least :| least in s;
    var left := s - {least};
    while left != {}
      invariant left <= s && least in s && least !in left
      invariant forall b :: b in s && b !in left && b != least ==> Less(least, b)
      decreases |left|
    {
      var b :| b in left;
      LessIsTotal(b, least);
      if Less(b, least) {
        forall c | c in s && c !in left && c != least ensures Less(b, c) {
          LessIsTransitive(b, least, c);
        }
        least := b;
      }
      left := left - {b};
    }
  }

  /** `sorted` */
  method SortBytes(s: set<Bytes>) returns (keys: seq<Bytes>)
    ensures AscendingBytes(keys)
    ensures forall b :: b in keys <==> b in s
  {
    keys := [];
    var left := s;
    while left != {}
      invariant left <= s && AscendingBytes(keys)
      invariant forall i, b :: 0 <= i < |keys| && b in left ==> Less(keys[i], b)
      invariant forall b :: b in keys || b in left <==> b in s
      decreases |left|
    {
      var b := Least(left);
      keys := keys + [b];
      left := left - {b};
    }
  }
}
