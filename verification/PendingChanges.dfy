/** The pending list as a specification: what it holds, and what one published batch leaves of it. */
module PendingChanges {
  import opened Common
  import opened Paths
  import opened Staging
  import opened Service

  ghost predicate InScope(p: Path, withheld: set<Path>, selection: Option<set<Path>>) {
    p !in withheld && (selection.Some? ==> p in selection.value)
  }

  lemma {:induction false} OfferedMeaning(cs: seq<Change>, withheld: set<Path>, selection: Option<set<Path>>)
    requires Ascending(PathsOf(cs))
    ensures var os := Offered(cs, withheld, selection);
            && Ascending(PathsOf(os))
            && forall c :: c in os <==> c in cs && InScope(c.path, withheld, selection)
  {
    if cs != [] {
      var front, c := cs[..|cs| - 1], cs[|cs| - 1];
      assert PathsOf(front) == PathsOf(cs)[..|cs| - 1];
      AscendingFront(PathsOf(cs));
      OfferedMeaning(front, withheld, selection);
      var kept := Offered(front, withheld, selection);
      forall x ensures x in cs <==> x in front || x == c {
        assert cs == front + [c];
      }
      if InScope(c.path, withheld, selection) {
        assert PathsOf(kept + [c]) == PathsOf(kept) + [c.path];
        forall i | 0 <= i < |kept| ensures Before(PathsOf(kept)[i], c.path) {
          assert kept[i] in kept;
          assert kept[i] in front;
          var j :| 0 <= j < |front| && front[j] == kept[i];
          assert Before(PathsOf(cs)[j], PathsOf(cs)[|cs| - 1]);
        }
        AscendingAppend(PathsOf(kept), c.path);
      } else {
        assert kept + [] == kept;
      }
    }
  }

  lemma AscendingFront(ps: seq<Path>)
    requires Ascending(ps) && ps != []
    ensures Ascending(ps[..|ps| - 1])
  {
  }

  lemma AscendingAppend(ps: seq<Path>, p: Path)
    requires Ascending(ps) && forall i :: 0 <= i < |ps| ==> Before(ps[i], p)
    ensures Ascending(ps + [p])
  {
  }

  lemma AscendingTail(ps: seq<Path>, n: nat)
    requires Ascending(ps) && n <= |ps|
    ensures Ascending(ps[n..])
  {
  }

  /** What a publication has to carry: in path order, each in-scope path whose staged version is not the
      baseline's, once, with both sides. */
  lemma PendingMeaning(s: Snapshot, l: Listing, withheld: set<Path>, selection: Option<set<Path>>)
    ensures var cs := Pending(s, l, withheld, selection);
            && Ascending(PathsOf(cs))
            && (forall c :: c in cs ==> InScope(c.path, withheld, selection) && Differs(s, l, c.path) && c == ChangeAt(s, l, c.path))
            && (forall p :: InScope(p, withheld, selection) && Differs(s, l, p) ==> ChangeAt(s, l, p) in cs)
  {
    PendingIsExact(s, l);
    OfferedMeaning(Changes(s, l), withheld, selection);
  }

  /** Which paths are offered: those whose staged version is not the baseline's, not withheld, and among the selected ones
      if there is a selection. */
  lemma OfferedPathsIff(s: Snapshot, l: Listing, withheld: set<Path>, paths: Option<seq<Path>>, p: Path)
    ensures p in PathsOf(Pending(s, l, withheld, SelectionOf(paths))) <==>
              p !in withheld && (paths.Some? ==> p in paths.value) && VersionIn(s.files, p) != VersionIn(l, p)
  {
    var selection := SelectionOf(paths);
    var cs := Pending(s, l, withheld, selection);
    PendingMeaning(s, l, withheld, selection);
    PathListed(cs, p);
    assert InScope(p, withheld, selection) <==> p !in withheld && (paths.Some? ==> p in paths.value);
    assert InScope(p, withheld, selection) && Differs(s, l, p) ==> ChangeAt(s, l, p) in cs && ChangeAt(s, l, p).path == p;
  }

  /** A first selection is known exactly when each path in it is offered. */
  lemma SelectionIsKnownIff(s: Snapshot, l: Listing, withheld: set<Path>, ps: seq<Path>)
    ensures SetOf(ps) <= ChangedPaths(Pending(s, l, withheld, None)) <==>
            forall p :: p in ps ==> p !in withheld && VersionIn(s.files, p) != VersionIn(l, p)
  {
    var cs := Pending(s, l, withheld, None);
    forall p ensures p in ChangedPaths(cs) <==> p !in withheld && VersionIn(s.files, p) != VersionIn(l, p) {
      OfferedPathsIff(s, l, withheld, None, p);
      PathListed(cs, p);
    }
  }

  /** The order of the pending list: of two changes the earlier has the path that is a proper prefix of the other, or has
      the smaller character where the two first differ. */
  lemma PendingInCodePointOrder(s: Snapshot, l: Listing, withheld: set<Path>, selection: Option<set<Path>>, i: nat, j: nat)
    requires i < j < |Pending(s, l, withheld, selection)|
    ensures var cs := Pending(s, l, withheld, selection);
            var a, b := cs[i].path.folded, cs[j].path.folded;
            a < b || exists k :: 0 <= k < |a| && k < |b| && a[..k] == b[..k] && a[k] < b[k]
  {
    var cs := Pending(s, l, withheld, selection);
    PendingMeaning(s, l, withheld, selection);
    assert Before(PathsOf(cs)[i], PathsOf(cs)[j]);
    PrecedesIff(cs[i].path.folded, cs[j].path.folded);
  }

  lemma ChangesFromPaths(s: Snapshot, l: Listing, a: seq<Change>, b: seq<Change>)
    requires PathsOf(a) == PathsOf(b)
    requires forall c :: c in a ==> c == ChangeAt(s, l, c.path)
    requires forall c :: c in b ==> c == ChangeAt(s, l, c.path)
    ensures a == b
  {
    assert |a| == |PathsOf(a)| == |b|;
    forall i | 0 <= i < |a| ensures a[i] == b[i] {
      assert a[i] in a && b[i] in b;
      assert PathsOf(a)[i] == PathsOf(b)[i];
    }
  }

  /** The baseline after the first `k` pending changes were acknowledged. */
  ghost predicate MovedFor(s: Snapshot, l: Listing, cs: seq<Change>, k: nat, next: Snapshot)
    requires k <= |cs|
  {
    forall p :: Lookup(next.files, p) == if p in PathsOf(cs[..k]) then Lookup(l, p) else Lookup(s.files, p)
  }

  /** A path still differs exactly when it did before and was not acknowledged; then nothing about it moved. */
  lemma StillDiffers(s: Snapshot, l: Listing, cs: seq<Change>, k: nat, next: Snapshot, p: Path)
    requires k <= |cs| && MovedFor(s, l, cs, k, next)
    ensures Differs(next, l, p) <==> p !in PathsOf(cs[..k]) && Differs(s, l, p)
    ensures p !in PathsOf(cs[..k]) ==> ChangeAt(next, l, p) == ChangeAt(s, l, p)
  {
    assert Lookup(next.files, p) == if p in PathsOf(cs[..k]) then Lookup(l, p) else Lookup(s.files, p);
  }

  lemma SamePathsRemain(
    s: Snapshot, l: Listing, withheld: set<Path>, selection: Option<set<Path>>, k: nat, next: Snapshot, p: Path)
    requires k <= |Pending(s, l, withheld, selection)|
    requires MovedFor(s, l, Pending(s, l, withheld, selection), k, next)
    ensures p in PathsOf(Pending(next, l, withheld, selection)) <==> p in PathsOf(Pending(s, l, withheld, selection)[k..])
  {
    var cs, ds := Pending(s, l, withheld, selection), Pending(next, l, withheld, selection);
    PendingMeaning(s, l, withheld, selection);
    PendingMeaning(next, l, withheld, selection);
    StillDiffers(s, l, cs, k, next, p);
    PathsSplit(cs, k);
    PathListed(ds, p);
    PathListed(cs[k..], p);
    if p in PathsOf(ds) {
      PathInPart(cs, k, ChangeAt(s, l, p));
    }
    if p in PathsOf(cs[k..]) {
      var c :| c in cs[k..] && c.path == p;
      assert c in cs;
      assert ChangeAt(next, l, p) in ds;
    }
  }

  /** Acknowledging the first changes removes exactly them from the pending list: the rest stays, in
      order and unaltered, so a retry re-attempts only the unpublished remainder. */
  lemma AcknowledgedChangesLeave(
    s: Snapshot, l: Listing, withheld: set<Path>, selection: Option<set<Path>>, k: nat, next: Snapshot)
    requires k <= |Pending(s, l, withheld, selection)|
    requires MovedFor(s, l, Pending(s, l, withheld, selection), k, next)
    ensures Pending(next, l, withheld, selection) == Pending(s, l, withheld, selection)[k..]
  {
    var cs, ds := Pending(s, l, withheld, selection), Pending(next, l, withheld, selection);
    PendingMeaning(s, l, withheld, selection);
    PendingMeaning(next, l, withheld, selection);
    PathsSplit(cs, k);
    forall c | c in cs[k..] ensures c == ChangeAt(next, l, c.path) {
      PathListed(cs[k..], c.path);
      StillDiffers(s, l, cs, k, next, c.path);
    }
    forall p ensures p in PathsOf(ds) <==> p in PathsOf(cs[k..]) {
      SamePathsRemain(s, l, withheld, selection, k, next, p);
    }
    AscendingIsUnique(PathsOf(ds), PathsOf(cs[k..]));
    ChangesFromPaths(next, l, ds, cs[k..]);
  }

  lemma PathListed(cs: seq<Change>, p: Path)
    ensures p in PathsOf(cs) <==> exists c :: c in cs && c.path == p
  {
    if c :| c in cs && c.path == p {
      var i :| 0 <= i < |cs| && cs[i] == c;
      assert PathsOf(cs)[i] == p;
    }
    if p in PathsOf(cs) {
      var i :| 0 <= i < |cs| && PathsOf(cs)[i] == p;
      assert cs[i] in cs;
    }
  }

  lemma PathInPart(cs: seq<Change>, k: nat, c: Change)
    requires k <= |cs| && c in cs
    ensures c.path in PathsOf(cs[..k]) || c.path in PathsOf(cs[k..])
  {
    var j :| 0 <= j < |cs| && cs[j] == c;
    if j < k {
      assert PathsOf(cs[..k])[j] == c.path;
    } else {
      assert PathsOf(cs[k..])[j - k] == c.path;
    }
  }

  lemma PathsSplit(cs: seq<Change>, k: nat)
    requires Ascending(PathsOf(cs)) && k <= |cs|
    ensures Ascending(PathsOf(cs[k..]))
    ensures forall p :: p in PathsOf(cs[k..]) ==> p !in PathsOf(cs[..k])
  {
    assert PathsOf(cs[k..]) == PathsOf(cs)[k..];
    assert PathsOf(cs[..k]) == PathsOf(cs)[..k];
    AscendingTail(PathsOf(cs), k);
    AscendingHasNoRepeats(PathsOf(cs));
  }
}
