/** Workspace paths and the order in which every listing of them is walked.

    A path is identified with its case-folded name: the seeding walk and the manifest both refuse
    two paths that fold together, so the fold is a bijection on the paths of one workspace. */
module Paths {
  datatype Path = Path(folded: string)

  /** Code point order, as Python compares strings. */
  predicate Precedes(a: string, b: string) {
    if b == "" then false
    else if a == "" then true
    else if a[0] != b[0] then a[0] < b[0]
    else Precedes(a[1..], b[1..])
  }

  /** A string comes first if it is a proper prefix of the other, or has the smaller character where they first differ. */
  lemma {:induction false} PrecedesIff(a: string, b: string)
    ensures Precedes(a, b) <==> a < b || exists i :: 0 <= i < |a| && i < |b| && a[..i] == b[..i] && a[i] < b[i]
  {
    if a != "" && b != "" {
      assert a == [a[0]] + a[1..] && b == [b[0]] + b[1..];
      if a[0] == b[0] {
        PrecedesIff(a[1..], b[1..]);
        if i :| 0 <= i < |a[1..]| && i < |b[1..]| && a[1..][..i] == b[1..][..i] && a[1..][i] < b[1..][i] {
          assert a[..i + 1] == [a[0]] + a[1..][..i] && b[..i + 1] == [b[0]] + b[1..][..i];
          assert a[i + 1] < b[i + 1];
        }
        if i :| 0 <= i < |a| && i < |b| && a[..i] == b[..i] && a[i] < b[i] {
          assert a[1..][..i - 1] == a[..i][1..] && b[1..][..i - 1] == b[..i][1..];
          assert a[1..][i - 1] < b[1..][i - 1];
        }
      } else {
        assert a[..0] == b[..0];
        forall i | 0 < i <= |a| && i <= |b| ensures a[..i] != b[..i] {
          assert a[..i][0] != b[..i][0];
        }
      }
    }
  }

  lemma {:induction false} PrecedesIsTotal(a: string, b: string)
    ensures a == b || Precedes(a, b) || Precedes(b, a)
    ensures !(Precedes(a, b) && Precedes(b, a))
  {
    if a != "" && b != "" && a[0] == b[0] {
      PrecedesIsTotal(a[1..], b[1..]);
      assert a == [a[0]] + a[1..] && b == [b[0]] + b[1..];
    }
  }

  lemma {:induction false} PrecedesIsTransitive(a: string, b: string, c: string)
    requires Precedes(a, b) && Precedes(b, c)
    ensures Precedes(a, c)
  {
    if a != "" && a[0] == b[0] && b[0] == c[0] {
      PrecedesIsTransitive(a[1..], b[1..], c[1..]);
    }
  }

  /** The order of every `sorted(paths, key=str.casefold)`. */
  predicate Before(a: Path, b: Path) {
    Precedes(a.folded, b.folded)
  }

  lemma BeforeIsTotal(a: Path, b: Path)
    ensures a == b || Before(a, b) || Before(b, a)
    ensures !(Before(a, b) && Before(b, a))
    ensures !Before(a, a)
  {
    PrecedesIsTotal(a.folded, b.folded);
    PrecedesIsTotal(a.folded, a.folded);
  }

  lemma BeforeIsTransitive(a: Path, b: Path, c: Path)
    requires Before(a, b) && Before(b, c)
    ensures Before(a, c)
  {
    PrecedesIsTransitive(a.folded, b.folded, c.folded);
  }

  ghost predicate Ascending(ps: seq<Path>) {
    forall i, j {:trigger Before(ps[i], ps[j])} :: 0 <= i < j < |ps| ==> Before(ps[i], ps[j])
  }

  ghost predicate Least(m: Path, s: set<Path>) {
    m in s && forall q :: q in s ==> q == m || Before(m, q)
  }

  lemma LeastExists(s: set<Path>)
    requires s != {}
    ensures exists m :: Least(m, s)
    decreases |s|
  {
    var x :| x in s;
    var rest := s - {x};
    if rest == {} {
      assert Least(x, s) by {
        forall q | q in s ensures q == x { assert q !in rest; }
      }
    } else {
      LeastExists(rest);
      var m :| Least(m, rest);
      BeforeIsTotal(x, m);
      if Before(x, m) {
        forall q | q in s && q != x ensures Before(x, q) {
          if q != m { BeforeIsTransitive(x, m, q); }
        }
        assert Least(x, s);
      } else {
        assert Least(m, s);
      }
    }
  }

  ghost predicate Lists(ps: seq<Path>, s: set<Path>) {
    Ascending(ps) && forall p :: p in ps <==> p in s
  }

  lemma {:induction false} ListingExists(s: set<Path>)
    ensures exists ps :: Lists(ps, s)
    decreases |s|
  {
    if s == {} {
      assert Lists([], s);
    } else {
      LeastExists(s);
      var m :| Least(m, s);
      ListingExists(s - {m});
      var rest :| Lists(rest, s - {m});
      var ps := [m] + rest;
      forall i, j | 0 <= i < j < |ps| ensures Before(ps[i], ps[j]) {
        assert ps[j] == rest[j - 1] && rest[j - 1] in rest;
        if i > 0 { assert Before(rest[i - 1], rest[j - 1]); }
      }
      assert forall p :: p in s ==> p == m || p in rest;
      assert Lists(ps, s);
    }
  }

  /** The paths of a set in walking order. */
  ghost function Sorted(s: set<Path>): seq<Path> {
    ListingExists(s);
    var ps :| Lists(ps, s);
    ps
  }

  lemma SortedMeaning(s: set<Path>)
    ensures Lists(Sorted(s), s)
  {
    ListingExists(s);
  }

  /** What the walking order is, position by position. */
  lemma SortedInCodePointOrder(s: set<Path>, i: nat, j: nat)
    requires i < j < |Sorted(s)|
    ensures var a, b := Sorted(s)[i].folded, Sorted(s)[j].folded;
            a < b || exists k :: 0 <= k < |a| && k < |b| && a[..k] == b[..k] && a[k] < b[k]
  {
    SortedMeaning(s);
    assert Before(Sorted(s)[i], Sorted(s)[j]);
    PrecedesIff(Sorted(s)[i].folded, Sorted(s)[j].folded);
  }

  lemma AscendingHasNoRepeats(ps: seq<Path>)
    requires Ascending(ps)
    ensures forall i, j :: 0 <= i < j < |ps| ==> ps[i] != ps[j]
  {
    forall i, j | 0 <= i < j < |ps| ensures ps[i] != ps[j] {
      BeforeIsTotal(ps[i], ps[i]);
    }
  }

  /** A set has exactly one ascending listing, so the walking order is determined by the set. */
  lemma {:induction false} AscendingIsUnique(a: seq<Path>, b: seq<Path>)
    requires Ascending(a) && Ascending(b)
    requires forall p :: p in a <==> p in b
    ensures a == b
  {
    assert b != [] ==> b[0] in a;
    if a == [] {
    } else {
      assert a[0] in b && b[0] in a by { assert a[0] in a; assert b != []; assert b[0] in b; }
      BeforeIsTotal(a[0], b[0]);
      assert a[0] == b[0] by {
        var i :| 0 <= i < |b| && b[i] == a[0];
        var j :| 0 <= j < |a| && a[j] == b[0];
      }
      AscendingHasNoRepeats(a);
      AscendingHasNoRepeats(b);
      forall p ensures p in a[1..] <==> p in b[1..] {
        if p in a[1..] { 
          var i :| 0 <= i < |a[1..]| && a[1..][i] == p; assert a[i+1] == p && p in b;
          var j :| 0 <= j < |b| && b[j] == p; assert j != 0; assert b[1..][j-1] == p; }
        if p in b[1..] { 
          var i :| 0 <= i < |b[1..]| && b[1..][i] == p; assert b[i+1] == p && p in a;
          var j :| 0 <= j < |a| && a[j] == p; assert j != 0; assert a[1..][j-1] == p; }
      }
      AscendingIsUnique(a[1..], b[1..]);
      assert a == [a[0]] + a[1..] && b == [b[0]] + b[1..];
    }
  }

  /** The paths a loop over `ps` has visited after `n` rounds. */
  ghost function Walked(ps: seq<Path>, n: nat): set<Path>
    requires n <= |ps|
  {
    if n == 0 then {} else Walked(ps, n - 1) + {ps[n - 1]}
  }

  lemma {:induction false} WalkedMembers(ps: seq<Path>, n: nat)
    requires n <= |ps|
    ensures forall p :: p in Walked(ps, n) <==> p in ps[..n]
  {
    if n > 0 {
      WalkedMembers(ps, n - 1);
      assert ps[..n] == ps[..n - 1] + [ps[n - 1]];
    } else {
      assert ps[..n] == [];
    }
  }

  /** A loop over the sorted paths of a set visits all of them, */
  lemma WalkIsComplete(s: set<Path>)
    ensures Walked(Sorted(s), |Sorted(s)|) == s
  {
    var ps := Sorted(s);
    SortedMeaning(s);
    WalkedMembers(ps, |ps|);
    assert ps[..|ps|] == ps;
  }

  /** each of them once. */
  lemma WalkStep(s: set<Path>, n: nat)
    requires n < |Sorted(s)|
    ensures var ps := Sorted(s); ps[n] in s && ps[n] !in Walked(ps, n)
  {
    var ps := Sorted(s);
    SortedMeaning(s);
    AscendingHasNoRepeats(ps);
    WalkedMembers(ps, n);
    assert ps[n] in ps;
  }

  /** The imperative form of `sorted(paths)`: insertion of one path at a time. */
  method SortPaths(s: set<Path>) returns (r: seq<Path>)
    ensures r == Sorted(s)
  {
    r := [];
    var left := s;
    while left != {}
      invariant left <= s
      invariant Ascending(r)
      invariant forall p :: p in r <==> p in s - left
      decreases |left|
    {
      var p :| p in left;
      var i := 0;
      while i < |r| && Before(r[i], p)
        invariant 0 <= i <= |r|
        invariant forall k :: 0 <= k < i ==> Before(r[k], p)
      {
        i := i + 1;
      }
      forall k | i <= k < |r| ensures Before(p, r[k]) {
        assert r[i] in r;
        BeforeIsTotal(p, r[i]);
        if k != i { BeforeIsTransitive(p, r[i], r[k]); }
      }
      ghost var was := r;
      r := r[..i] + [p] + r[i..];
      assert forall k :: 0 <= k < |was| ==> was[k] == (if k < i then r[k] else r[k + 1]);
      forall q ensures q in r <==> q == p || q in was { 
        if q in was { var k :| 0 <= k < |was| && was[k] == q; assert q == if k < i then r[k] else r[k+1]; }
        assert r[i] == p;
      }
      left := left - {p};
    }
    SortedMeaning(s);
    AscendingIsUnique(r, Sorted(s));
  }
}
