/** The staged files, the publication baseline they are compared with, and what is pending. */
module Staging {
  import opened Common
  import opened Paths

  datatype File = File(content: Bytes, mode: nat)

  type Tree = map<Path, File>

  /** What a walk reports for one file. */
  datatype Entry = Entry(digest: Digest, size: nat, mode: nat)

  type Listing = map<Path, Entry>

  /** What two sides are compared by: content digest and mode. */
  datatype Version = Version(digest: Digest, mode: nat)

  /** Host (size, mtime) of a baseline file when it was last compared. */
  datatype Signature = Signature(size: nat, mtime: int)

  type Id = nat

  /** The publication baseline. The source keeps digest, size and mode in three tables that always
      hold the same paths; here they are one. */
  datatype Snapshot = Snapshot(id: Id, files: Listing, signatures: map<Path, Signature>)

  function EntryOf(f: File): Entry {
    Entry(Sha256(f.content), |f.content|, f.mode)
  }

  /** `visible_files`: every staged file with its digest, size and mode. */
  function Visible(t: Tree): Listing {
    map p | p in t :: EntryOf(t[p])
  }

  function VersionOfEntry(e: Entry): Version {
    Version(e.digest, e.mode)
  }

  function VersionIn(l: Listing, p: Path): Option<Version> {
    if p in l then Some(VersionOfEntry(l[p])) else None
  }

  function VersionOf(t: Tree, p: Path): Option<Version> {
    if p in t then Some(VersionOfEntry(EntryOf(t[p]))) else None
  }

  // ---- pending changes ----

  datatype Operation = Create | Update | Delete

  /** One pending change: what the baseline holds for the path and what staging holds. */
  datatype Change = Change(path: Path, operation: Operation, base: Option<Entry>, staged: Option<Entry>)

  predicate Differs(s: Snapshot, l: Listing, p: Path) {
    VersionIn(s.files, p) != VersionIn(l, p)
  }

  function ChangeAt(s: Snapshot, l: Listing, p: Path): Change {
    Change(p, if p !in l then Delete else if p !in s.files then Create else Update, Lookup(s.files, p), Lookup(l, p))
  }

  /** The changes at the listed paths, in their order. */
  function ChangesAlong(s: Snapshot, l: Listing, ps: seq<Path>): seq<Change> {
    if ps == [] then [] else
      var p := ps[|ps| - 1];
      ChangesAlong(s, l, ps[..|ps| - 1]) + (if Differs(s, l, p) then [ChangeAt(s, l, p)] else [])
  }

  ghost function Changes(s: Snapshot, l: Listing): seq<Change> {
    ChangesAlong(s, l, Sorted(s.files.Keys + l.Keys))
  }

  method WorkspaceChanges(s: Snapshot, l: Listing) returns (changes: seq<Change>)
    ensures changes == Changes(s, l)
  {
    var ps := SortPaths(s.files.Keys + l.Keys);
    changes := [];
    for i := 0 to |ps|
      invariant changes == ChangesAlong(s, l, ps[..i])
    {
      var p := ps[i];
      assert ps[..i + 1][..i] == ps[..i];
      if VersionIn(s.files, p) == VersionIn(l, p) {
        continue;
      }
      var operation := if p !in l then Delete else if p !in s.files then Create else Update;
      changes := changes + [Change(p, operation, Lookup(s.files, p), Lookup(l, p))];
    }
    assert ps[..|ps|] == ps;
  }

  ghost function PathsOf(cs: seq<Change>): seq<Path> {
    seq(|cs|, i requires 0 <= i < |cs| => cs[i].path)
  }

  lemma {:induction false} ChangesAlongMeaning(s: Snapshot, l: Listing, ps: seq<Path>)
    requires Ascending(ps)
    ensures var cs := ChangesAlong(s, l, ps);
            && Ascending(PathsOf(cs))
            && (forall c :: c in cs ==> c.path in ps && Differs(s, l, c.path) && c == ChangeAt(s, l, c.path))
            && (forall p :: p in ps && Differs(s, l, p) ==> ChangeAt(s, l, p) in cs)
  {
    if ps != [] {
      var p, front := ps[|ps| - 1], ps[..|ps| - 1];
      ChangesAlongMeaning(s, l, front);
      var cs := ChangesAlong(s, l, ps);
      var cf := ChangesAlong(s, l, front);
      forall i, j | 0 <= i < j < |PathsOf(cs)| ensures Before(PathsOf(cs)[i], PathsOf(cs)[j]) {
        if j < |cf| {
          assert PathsOf(cf)[i] == cs[i].path && PathsOf(cf)[j] == cs[j].path;
        } else {
          assert cs[i] == cf[i] && cf[i] in cf;
          assert cs[i].path in front;
        }
      }
      forall q | q in ps && Differs(s, l, q) ensures ChangeAt(s, l, q) in cs {
        if q == p {
          assert cs[|cs| - 1] == ChangeAt(s, l, q);
        } else {
          assert q in front;
        }
      }
      forall c | c in cs ensures c.path in ps && Differs(s, l, c.path) && c == ChangeAt(s, l, c.path) {
        if c in cf { assert c.path in front; }
      }
    }
  }

  /** The pending list is exact and in path order: a path is listed once if its staged version is not
      the baseline's, never otherwise, and each item carries both sides of its path. */
  lemma PendingIsExact(s: Snapshot, l: Listing)
    ensures Ascending(PathsOf(Changes(s, l)))
    ensures forall c :: c in Changes(s, l) ==>
              VersionIn(s.files, c.path) != VersionIn(l, c.path) && c == ChangeAt(s, l, c.path)
    ensures forall p :: VersionIn(s.files, p) != VersionIn(l, p) ==> ChangeAt(s, l, p) in Changes(s, l)
  {
    SortedMeaning(s.files.Keys + l.Keys);
    ChangesAlongMeaning(s, l, Sorted(s.files.Keys + l.Keys));
  }

  // ---- publication batches ----

  const PUBLISH_BATCH_MAX_OPERATIONS: nat := 500
  const PUBLISH_BATCH_MAX_BYTES: nat := 32_000_000

  function ItemSize(c: Change): nat {
    if c.operation == Delete then 0 else match c.staged case Some(e) => e.size case None => 0
  }

  predicate Oversize(c: Change) {
    ItemSize(c) > PUBLISH_BATCH_MAX_BYTES
  }

  function BatchBytes(cs: seq<Change>): nat {
    if cs == [] then 0 else ItemSize(cs[0]) + BatchBytes(cs[1..])
  }

  ghost predicate WithinBatch(cs: seq<Change>) {
    1 <= |cs| <= PUBLISH_BATCH_MAX_OPERATIONS && BatchBytes(cs) <= PUBLISH_BATCH_MAX_BYTES
  }

  /** How many leading changes join a batch that already holds `n` operations and `size` bytes. */
  function Fit(cs: seq<Change>, n: nat, size: nat): (k: nat)
    ensures k <= |cs|
    ensures cs != [] && n == 0 ==> k >= 1
  {
    if cs == [] then 0
    else if n > 0 && (n >= PUBLISH_BATCH_MAX_OPERATIONS || size + ItemSize(cs[0]) > PUBLISH_BATCH_MAX_BYTES) then 0
    else 1 + Fit(cs[1..], n + 1, size + ItemSize(cs[0]))
  }

  function Greedy(cs: seq<Change>): seq<seq<Change>> {
    if cs == [] then [] else
      var k := Fit(cs, 0, 0);
      [cs[..k]] + Greedy(cs[k..])
  }

  /** The batches still to be produced when `open`, of `size` bytes, is being filled and `rest` is unread. */
  ghost function Finish(open: seq<Change>, size: nat, rest: seq<Change>): seq<seq<Change>> {
    if open == [] then Greedy(rest) else
      var k := Fit(rest, |open|, size);
      [open + rest[..k]] + Greedy(rest[k..])
  }

  predicate Full(open: seq<Change>, size: nat, next: Change) {
    |open| >= PUBLISH_BATCH_MAX_OPERATIONS || size + ItemSize(next) > PUBLISH_BATCH_MAX_BYTES
  }

  datatype BatchError = FileTooLarge(path: Path)

  lemma {:induction false} BytesAppend(a: seq<Change>, b: seq<Change>)
    ensures BatchBytes(a + b) == BatchBytes(a) + BatchBytes(b)
  {
    if a == [] {
      assert a + b == b;
    } else {
      assert (a + b)[1..] == a[1..] + b;
      BytesAppend(a[1..], b);
    }
  }

  method PublicationBatches(changes: seq<Change>) returns (r: Result<seq<seq<Change>>, BatchError>)
    ensures r.Ok? <==> forall i :: 0 <= i < |changes| ==> !Oversize(changes[i])
    ensures r.Ok? ==> r.value == Greedy(changes)
    ensures r.Err? ==> exists i :: (0 <= i < |changes| && Oversize(changes[i])
                                   && r.error == FileTooLarge(changes[i].path)
                                   && forall j :: 0 <= j < i ==> !Oversize(changes[j]))
  {
    var batches: seq<seq<Change>>, current: seq<Change>, size: nat := [], [], 0;
    for i := 0 to |changes|
      invariant forall j :: 0 <= j < i ==> !Oversize(changes[j])
      invariant current == [] ==> size == 0
      invariant Greedy(changes) == batches + Finish(current, size, changes[i..])
    {
      var change := changes[i];
      var itemSize := ItemSize(change);
      if itemSize > PUBLISH_BATCH_MAX_BYTES {
        return Err(FileTooLarge(change.path));
      }
      ghost var rest := changes[i..];
      assert rest[0] == change && rest[1..] == changes[i + 1..];
      if current != [] && Full(current, size, change) {
        FinishFull(batches, current, size, rest);
        batches := batches + [current];
        current, size := [], 0;
      }
      FinishStep(current, size, rest);
      current := current + [change];
      size := size + itemSize;
    }
    assert changes[|changes|..] == [];
    FinishEmpty(current, size);
    if current != [] {
      batches := batches + [current];
    }
    return Ok(batches);
  }

  lemma FinishEmpty(open: seq<Change>, size: nat)
    ensures Finish(open, size, []) == if open == [] then [] else [open]
  {
    assert open + [] == open;
  }

  lemma FinishFull(done: seq<seq<Change>>, open: seq<Change>, size: nat, rest: seq<Change>)
    requires open != [] && rest != [] && Full(open, size, rest[0])
    ensures done + Finish(open, size, rest) == (done + [open]) + Finish([], 0, rest)
  {
    assert rest[..0] == [] && rest[0..] == rest && open + [] == open;
  }

  lemma MoveOne<T>(open: seq<T>, rest: seq<T>, k: nat)
    requires 1 <= k <= |rest|
    ensures open + rest[..k] == (open + [rest[0]]) + rest[1..][..k - 1]
    ensures rest[k..] == rest[1..][k - 1..]
  {
  }

  lemma FitStep(rest: seq<Change>, n: nat, size: nat)
    requires rest != [] && Fit(rest, n, size) > 0
    ensures Fit(rest, n, size) == 1 + Fit(rest[1..], n + 1, size + ItemSize(rest[0]))
  {
  }

  lemma FinishStep(open: seq<Change>, size: nat, rest: seq<Change>)
    requires rest != []
    requires open == [] ==> size == 0
    requires open == [] || !Full(open, size, rest[0])
    ensures Finish(open, size, rest) == Finish(open + [rest[0]], size + ItemSize(rest[0]), rest[1..])
  {
    var k := Fit(rest, |open|, size);
    FitStep(rest, |open|, size);
    MoveOne(open, rest, k);
    if open == [] {
      assert open + rest[..k] == rest[..k];
      assert Greedy(rest) == [rest[..k]] + Greedy(rest[k..]);
    }
  }

  /** The chosen prefix respects both limits and cannot be extended. */
  lemma {:induction false} FitIsMaximal(cs: seq<Change>, n: nat, size: nat)
    requires forall c :: c in cs ==> !Oversize(c)
    requires n <= PUBLISH_BATCH_MAX_OPERATIONS && size <= PUBLISH_BATCH_MAX_BYTES && (n == 0 ==> size == 0)
    ensures var k := Fit(cs, n, size);
            && n + k <= 500 && size + BatchBytes(cs[..k]) <= 32_000_000
            && forall m :: k < m <= |cs| ==> n + m > 500 || size + BatchBytes(cs[..m]) > 32_000_000
  {
    var k := Fit(cs, n, size);
    if cs != [] {
      assert cs[0] in cs;
      if k > 0 {
        assert forall c :: c in cs[1..] ==> c in cs;
        FitIsMaximal(cs[1..], n + 1, size + ItemSize(cs[0]));
        assert cs[..k][1..] == cs[1..][..k - 1];
      }
      forall m | k < m <= |cs|
        ensures n + m > PUBLISH_BATCH_MAX_OPERATIONS || size + BatchBytes(cs[..m]) > PUBLISH_BATCH_MAX_BYTES
      {
        assert cs[..m][0] == cs[0] && cs[..m][1..] == cs[1..][..m - 1];
      }
    }
  }

  ghost predicate IsPartition(bs: seq<seq<Change>>, cs: seq<Change>) {
    Flatten(bs) == cs && forall b :: b in bs ==> WithinBatch(b)
  }

  /** Nothing is lost, repeated or reordered, and every batch is one the desktop broker accepts. */
  lemma {:induction false} GreedyIsPartition(cs: seq<Change>)
    requires forall c :: c in cs ==> !Oversize(c)
    ensures IsPartition(Greedy(cs), cs)
  {
    if cs != [] {
      var k := Fit(cs, 0, 0);
      FitIsMaximal(cs, 0, 0);
      assert forall c :: c in cs[k..] ==> c in cs;
      GreedyIsPartition(cs[k..]);
      assert Greedy(cs)[1..] == Greedy(cs[k..]);
      assert cs == cs[..k] + cs[k..];
    }
  }

  lemma {:induction false} BytesOfPart(cs: seq<Change>, i: nat, j: nat)
    requires i <= j <= |cs|
    ensures BatchBytes(cs[i..j]) <= BatchBytes(cs)
  {
    assert cs == cs[..i] + (cs[i..j] + cs[j..]);
    BytesAppend(cs[..i], cs[i..j] + cs[j..]);
    BytesAppend(cs[i..j], cs[j..]);
  }

  lemma FirstOfFlatten<T>(bs: seq<seq<T>>, cs: seq<T>, i: nat)
    requires i <= |cs| && bs != [] && Flatten(bs) == cs[i..]
    ensures i + |bs[0]| <= |cs| && bs[0] == cs[i..i + |bs[0]|] && Flatten(bs[1..]) == cs[i + |bs[0]|..]
  {
    var n := |bs[0]|;
    assert bs[0] + Flatten(bs[1..]) == cs[i..];
    assert bs[0] == cs[i..][..n] && Flatten(bs[1..]) == cs[i..][n..];
  }

  /** Greedy stays ahead: a partition of an earlier suffix is never shorter. */
  lemma {:induction false} GreedyStaysAhead(bs: seq<seq<Change>>, cs: seq<Change>, i: nat, j: nat)
    requires i <= j <= |cs|
    requires forall c :: c in cs ==> !Oversize(c)
    requires IsPartition(bs, cs[i..])
    ensures |Greedy(cs[j..])| <= |bs|
    decreases |bs|
  {
    if j < |cs| {
      assert bs != [];
      FirstOfFlatten(bs, cs, i);
      var e := i + |bs[0]|;
      assert IsPartition(bs[1..], cs[e..]);
      if e <= j {
        GreedyStaysAhead(bs[1..], cs, e, j);
      } else {
        var k := Fit(cs[j..], 0, 0);
        GreedyReaches(bs[0], cs, i, j);
        GreedyStaysAhead(bs[1..], cs, e, j + k);
        assert cs[j..][k..] == cs[j + k..];
      }
    }
  }

  /** A greedy batch started inside an acceptable batch reaches at least that batch's end. */
  lemma GreedyReaches(b: seq<Change>, cs: seq<Change>, i: nat, j: nat)
    requires i <= j < i + |b| <= |cs|
    requires forall c :: c in cs ==> !Oversize(c)
    requires b == cs[i..i + |b|] && WithinBatch(b)
    ensures j + Fit(cs[j..], 0, 0) >= i + |b|
  {
    var tail, m := cs[j..], i + |b| - j;
    assert forall c :: c in tail ==> c in cs;
    FitIsMaximal(tail, 0, 0);
    BytesOfPart(b, j - i, |b|);
    assert tail[..m] == cs[j..i + |b|] && b[j - i..|b|] == cs[j..i + |b|];
  }

  /** No way of cutting the pending list into batches the broker accepts uses fewer batches. */
  lemma GreedyIsOptimal(cs: seq<Change>, bs: seq<seq<Change>>)
    requires forall c :: c in cs ==> !Oversize(c)
    requires IsPartition(bs, cs)
    ensures |Greedy(cs)| <= |bs|
  {
    assert cs[0..] == cs;
    GreedyStaysAhead(bs, cs, 0, 0);
  }

  /** Once the first batch is gone, batching what remains gives exactly the other batches. */
  lemma RemainderKeepsBatches(cs: seq<Change>)
    requires cs != []
    ensures Greedy(cs)[0] + cs[|Greedy(cs)[0]|..] == cs
    ensures Greedy(cs[|Greedy(cs)[0]|..]) == Greedy(cs)[1..]
  {
  }
}
