/** The content-addressed checkpoint store: creation, pruning under a byte budget, and rollback. */
module Checkpoints {
  import opened Common
  import opened Paths
  import opened Staging
  import opened Drift

  const DEFAULT_MAX_CHECKPOINTS: nat := 8
  const DEFAULT_MAX_CHECKPOINT_FILES: nat := 300_000
  const DEFAULT_MAX_CHECKPOINT_BYTES: nat := 2_500_000_000

  type CheckpointId = nat

  /** What the store knows of one checkpoint; a directory whose manifest is gone counts as created at 0, refers to
      nothing, and cannot be restored. */
  datatype Manifest = Manifest(created: nat, files: Listing, present: bool)

  const HOLLOW := Manifest(0, map[], false)

  type Shelf = map<CheckpointId, Manifest>

  datatype CheckpointError = LimitExceeded | NotStored | NeverReturns(checkpoint: CheckpointId) | NotFound | Corrupt | NotWritten(path: Path)

  // ---- sizes ----

  /** Bytes of distinct objects. */
  ghost function DigestBytes(ds: set<Digest>): nat {
    if ds == {} then 0 else
      var d :| d in ds;
      |d.preimage| + DigestBytes(ds - {d})
  }

  lemma {:induction false} DigestBytesWithout(ds: set<Digest>, d: Digest)
    requires d in ds
    ensures DigestBytes(ds) == |d.preimage| + DigestBytes(ds - {d})
    decreases |ds|
  {
    var c :| c in ds && DigestBytes(ds) == |c.preimage| + DigestBytes(ds - {c});
    if c != d {
      DigestBytesWithout(ds - {c}, d);
      DigestBytesWithout(ds - {d}, c);
      assert ds - {c} - {d} == ds - {d} - {c};
    }
  }

  lemma {:induction false} DigestBytesMonotone(a: set<Digest>, b: set<Digest>)
    requires a <= b
    ensures DigestBytes(a) <= DigestBytes(b)
    decreases |a|
  {
    if a != {} {
      var d :| d in a;
      DigestBytesWithout(a, d);
      DigestBytesWithout(b, d);
      DigestBytesMonotone(a - {d}, b - {d});
    }
  }

  lemma DigestBytesAdd(ds: set<Digest>, d: Digest)
    ensures DigestBytes(ds + {d}) <= DigestBytes(ds) + |d.preimage|
  {
    if d in ds {
      assert ds + {d} == ds;
    } else {
      DigestBytesWithout(ds + {d}, d);
      assert ds + {d} - {d} == ds;
    }
  }

  /** `sum(size for ...)` over the first `n` listed files. */
  function ListingBytes(l: Listing, ps: seq<Path>, n: nat): nat
    requires n <= |ps|
  {
    if n == 0 then 0 else ListingBytes(l, ps, n - 1) + (if ps[n - 1] in l then l[ps[n - 1]].size else 0)
  }

  ghost function TotalBytes(l: Listing): nat {
    ListingBytes(l, Sorted(l.Keys), |Sorted(l.Keys)|)
  }

  ghost function DigestsAlong(l: Listing, ps: seq<Path>, n: nat): set<Digest>
    requires n <= |ps|
  {
    if n == 0 then {} else DigestsAlong(l, ps, n - 1) + (if ps[n - 1] in l then {l[ps[n - 1]].digest} else {})
  }

  function DigestsOf(l: Listing): set<Digest> {
    set p | p in l :: l[p].digest
  }

  ghost predicate HonestSizes(l: Listing) {
    forall p :: p in l ==> l[p].size == |l[p].digest.preimage|
  }

  lemma {:induction false} DedupAlong(l: Listing, ps: seq<Path>, n: nat)
    requires n <= |ps| && HonestSizes(l)
    ensures DigestBytes(DigestsAlong(l, ps, n)) <= ListingBytes(l, ps, n)
    ensures forall d :: d in DigestsAlong(l, ps, n) <==> exists p :: p in Walked(ps, n) && p in l && l[p].digest == d
  {
    if n > 0 {
      DedupAlong(l, ps, n - 1);
      if ps[n - 1] in l {
        DigestBytesAdd(DigestsAlong(l, ps, n - 1), l[ps[n - 1]].digest);
      } else {
        assert DigestsAlong(l, ps, n) == DigestsAlong(l, ps, n - 1);
      }
    }
  }

  /** Deduplicated, a listing needs no more bytes than its files add up to. */
  lemma DedupNeverGrows(l: Listing)
    requires HonestSizes(l)
    ensures DigestBytes(DigestsOf(l)) <= TotalBytes(l)
  {
    var ps := Sorted(l.Keys);
    DedupAlong(l, ps, |ps|);
    WalkIsComplete(l.Keys);
    forall d ensures d in DigestsOf(l) <==> d in DigestsAlong(l, ps, |ps|) {
    }
    assert DigestsOf(l) == DigestsAlong(l, ps, |ps|);
  }

  method MeasureListing(l: Listing) returns (total: nat)
    ensures total == TotalBytes(l)
  {
    var ps := SortPaths(l.Keys);
    total := 0;
    for i := 0 to |ps|
      invariant total == ListingBytes(l, ps, i)
    {
      WalkStep(l.Keys, i);
      total := total + l[ps[i]].size;
    }
  }

  /** Every object some retained checkpoint refers to. */
  function Referenced(shelf: Shelf): set<Digest> {
    set id, p | id in shelf && p in shelf[id].files :: shelf[id].files[p].digest
  }

  method MeasureObjects(ds: set<Digest>) returns (total: nat)
    ensures total == DigestBytes(ds)
  {
    total := 0;
    var left := ds;
    while left != {}
      invariant left <= ds
      invariant total + DigestBytes(left) == DigestBytes(ds)
      decreases |left|
    {
      var d :| d in left;
      DigestBytesWithout(left, d);
      total := total + |d.preimage|;
      left := left - {d};
    }
  }

  // ---- age ----

  /** Oldest first: recorded creation time, then name. */
  predicate Older(shelf: Shelf, a: CheckpointId, b: CheckpointId)
    requires a in shelf && b in shelf
  {
    shelf[a].created < shelf[b].created || (shelf[a].created == shelf[b].created && a < b)
  }

  ghost predicate Oldest(shelf: Shelf, among: set<CheckpointId>, v: CheckpointId)
    requires among <= shelf.Keys
  {
    v in among && forall u :: u in among && u != v ==> Older(shelf, v, u)
  }

  /** `min(removable, key=_checkpoint_order)` */
  method PickOldest(shelf: Shelf, among: set<CheckpointId>) returns (v: CheckpointId)
    requires among != {} && among <= shelf.Keys
    ensures Oldest(shelf, among, v)
    ensures forall u :: u in among && u != v ==>
              shelf[v].created < shelf[u].created || (shelf[v].created == shelf[u].created && v < u)
  {
    v :| v in among;
    var left := among - {v};
    while left != {}
      invariant left <= among && v in among && v !in left
      invariant forall u :: u in among && u !in left && u != v ==> Older(shelf, v, u)
      decreases |left|
    {
      var u :| u in left;
      if Older(shelf, u, v) {
        v := u;
      }
      left := left - {u};
    }
  }

  // ---- removal ----

  /** What removing a checkpoint's directory achieves, attempt after attempt; errors are ignored. */
  datatype Removal = Gone | Kept | Emptied

  type Fates = CheckpointId -> Removal

  function Removed(shelf: Shelf, v: CheckpointId, fate: Removal): Shelf
    requires v in shelf
  {
    match fate
    case Gone => shelf - {v}
    case Kept => shelf
    case Emptied => shelf[v := HOLLOW]
  }

  /** The checkpoints that still hold what they held. */
  function Intact(before: Shelf, after: Shelf): set<CheckpointId> {
    set id | id in before && id in after && after[id] == before[id]
  }

  /** What a prune may do: never touch the current checkpoint, empty one only where its directory cannot be removed,
      and of those that can be removed lose the oldest. */
  ghost predicate EvictsOldest(before: Shelf, after: Shelf, current: CheckpointId, fates: Fates) {
    && (forall id :: id in after ==> id in before && (after[id] == before[id] || (after[id] == HOLLOW && fates(id) == Emptied)))
    && (forall id :: id in before && fates(id) != Gone ==> id in after)
    && (current in before ==> current in Intact(before, after))
    && (forall v, k :: v in before && v !in Intact(before, after) && k in after && k != current && fates(k) == Gone ==> Older(before, v, k))
  }

  /** No checkpoint that could have been removed is kept while one created after it is lost; those created at the same
      time go by name. */
  lemma PruneKeepsTheNewer(before: Shelf, after: Shelf, current: CheckpointId, fates: Fates, lost: CheckpointId, kept: CheckpointId)
    requires EvictsOldest(before, after, current, fates)
    requires lost in before && (lost !in after || after[lost] != before[lost])
    requires kept in after && kept != current && fates(kept) == Gone
    ensures kept in before && before[lost].created <= before[kept].created
    ensures before[lost].created == before[kept].created ==> lost < kept
  {
    assert lost !in Intact(before, after);
    assert Older(before, lost, kept);
  }

  /** The count pruning drops a checkpoint that can be removed exactly when at least `keep` others were created after it,
      or at the same time with a later name. */
  lemma DroppedByCountIff(shelf: Shelf, current: CheckpointId, keep: nat, fates: Fates, id: CheckpointId, later: set<CheckpointId>)
    requires id in shelf && id != current && fates(id) == Gone
    requires forall u :: u in later <==>
               && u in shelf && shelf[id].created <= shelf[u].created
               && (shelf[id].created == shelf[u].created ==> id < u)
    ensures id !in AfterCount(shelf, current, keep, fates) <==> |later| >= keep
  {
    assert Newer(shelf, id) == later;
  }

  function Only(shelf: Shelf, ids: set<CheckpointId>): Shelf {
    map id | id in shelf && id in ids :: shelf[id]
  }

  function Newer(shelf: Shelf, id: CheckpointId): set<CheckpointId>
    requires id in shelf
  {
    set u | u in shelf && Older(shelf, id, u)
  }

  /** Among the newest `keep`, or the current one. */
  ghost predicate KeptByCount(shelf: Shelf, current: CheckpointId, keep: nat, id: CheckpointId)
    requires id in shelf
  {
    id == current || |Newer(shelf, id)| < keep
  }

  ghost predicate ByAge(shelf: Shelf, ids: seq<CheckpointId>) {
    && (forall i :: 0 <= i < |ids| ==> ids[i] in shelf)
    && forall i, j :: 0 <= i < j < |ids| ==> Older(shelf, ids[i], ids[j])
  }

  /** `sorted(directories, key=_checkpoint_order)` */
  method SortByAge(shelf: Shelf) returns (ids: seq<CheckpointId>)
    ensures ByAge(shelf, ids)
    ensures forall i, j :: 0 <= i < j < |ids| ==>
              && ids[i] in shelf && ids[j] in shelf && shelf[ids[i]].created <= shelf[ids[j]].created
              && (shelf[ids[i]].created == shelf[ids[j]].created ==> ids[i] < ids[j])
    ensures forall id :: id in ids <==> id in shelf
  {
    ids := [];
    var left := shelf.Keys;
    while left != {}
      invariant left <= shelf.Keys
      invariant ByAge(shelf, ids)
      invariant forall i, u :: 0 <= i < |ids| && u in left ==> Older(shelf, ids[i], u)
      invariant forall id :: id in ids || id in left <==> id in shelf
      decreases |left|
    {
      var v := PickOldest(shelf, left);
      ids := ids + [v];
      left := left - {v};
    }
  }

  lemma RangeSize(ids: seq<CheckpointId>, s: set<CheckpointId>, from: nat)
    requires from <= |ids|
    requires forall i, j :: 0 <= i < j < |ids| ==> ids[i] != ids[j]
    requires forall u :: u in s <==> exists i :: from <= i < |ids| && ids[i] == u
    ensures |s| == |ids| - from
    decreases |ids| - from
  {
    if from == |ids| {
      assert s == {};
    } else {
      RangeSize(ids, s - {ids[from]}, from + 1);
    }
  }

  /** A checkpoint's place in the age order is the number of newer ones. */
  lemma PlaceIsNewer(shelf: Shelf, ids: seq<CheckpointId>, i: nat)
    requires ByAge(shelf, ids) && (forall id :: id in ids <==> id in shelf) && i < |ids|
    ensures |Newer(shelf, ids[i])| == |ids| - 1 - i
  {
    forall u ensures u in Newer(shelf, ids[i]) <==> exists j :: i + 1 <= j < |ids| && ids[j] == u {
      if u in Newer(shelf, ids[i]) {
        var j :| 0 <= j < |ids| && ids[j] == u;
      }
      if j :| i + 1 <= j < |ids| && ids[j] == u {
        assert Older(shelf, ids[i], ids[j]);
        assert u in ids;
      }
    }
    RangeSize(ids, Newer(shelf, ids[i]), i + 1);
  }

  ghost predicate Sound(objects: map<Digest, Bytes>, l: Listing) {
    forall p :: p in l ==>
      && l[p].digest in objects
      && Sha256(objects[l[p].digest]) == l[p].digest
      && l[p].size == |l[p].digest.preimage|
  }

  ghost predicate AllSound(objects: map<Digest, Bytes>, shelf: Shelf) {
    forall id :: id in shelf ==> Sound(objects, shelf[id].files)
  }

  lemma RemovedIsSound(objects: map<Digest, Bytes>, shelf: Shelf, v: CheckpointId, fate: Removal)
    requires AllSound(objects, shelf) && v in shelf
    ensures AllSound(objects, Removed(shelf, v, fate))
  {
  }

  function AtLeastOne(n: nat): (r: nat)
    ensures r >= 1 && r >= n && (r == 1 || r == n)
  {
    if n == 0 then 1 else n
  }

  /** What the count pruning leaves: the newest and the current one, and what cannot be removed, perhaps emptied. */
  ghost function AfterCount(shelf: Shelf, current: CheckpointId, keep: nat, fates: Fates): Shelf {
    map id | id in shelf && (KeptByCount(shelf, current, keep, id) || fates(id) != Gone) ::
      if !KeptByCount(shelf, current, keep, id) && fates(id) == Emptied then HOLLOW else shelf[id]
  }

  /** The last victim had to go: with it the store was over its budget. */
  ghost predicate NeededLast(counted: Shelf, after: Shelf, maxBytes: nat) {
    exists v :: v in counted && v !in Intact(counted, after) &&
                DigestBytes(Referenced(Only(counted, Intact(counted, after) + {v}))) > maxBytes
  }

  /** Whatever the count left is still there, unless the byte budget forced the last eviction. */
  ghost predicate NothingEvictedInVain(before: Shelf, after: Shelf, current: CheckpointId, keep: nat, fates: Fates, maxBytes: nat) {
    var counted := AfterCount(before, current, keep, fates);
    counted == after || NeededLast(counted, after, maxBytes)
  }

  lemma EvictTwice(before: Shelf, mid: Shelf, after: Shelf, current: CheckpointId, fates: Fates)
    requires EvictsOldest(before, mid, current, fates) && EvictsOldest(mid, after, current, fates) && current in mid
    ensures EvictsOldest(before, after, current, fates)
  {
    forall v, k | v in before && v !in Intact(before, after) && k in after && k != current && fates(k) == Gone
      ensures Older(before, v, k)
    {
      if v in Intact(before, mid) {
        assert v !in Intact(mid, after);
        assert Older(mid, v, k);
      }
    }
  }

  // ---- does the byte pruning end? ----

  /** The budget is met, or there is nothing left to remove: the loop leaves. */
  ghost predicate Leaves(shelf: Shelf, current: CheckpointId, maxBytes: nat) {
    DigestBytes(Referenced(shelf)) <= maxBytes || shelf.Keys <= {current}
  }

  /** One round of the loop. */
  ghost predicate Round(shelf: Shelf, next: Shelf, current: CheckpointId, fates: Fates, maxBytes: nat) {
    !Leaves(shelf, current, maxBytes) &&
    exists v :: Oldest(shelf, shelf.Keys - {current}, v) && next == Removed(shelf, v, fates(v))
  }

  /** The loop does not leave, and every further round changes nothing. */
  ghost predicate Spins(shelf: Shelf, current: CheckpointId, fates: Fates, maxBytes: nat) {
    && !Leaves(shelf, current, maxBytes)
    && forall next :: Round(shelf, next, current, fates, maxBytes) ==> next == shelf
  }

  ghost predicate IsPruneRun(rounds: seq<Shelf>, current: CheckpointId, fates: Fates, maxBytes: nat) {
    && rounds != []
    && forall i :: 0 <= i < |rounds| - 1 ==> Round(rounds[i], rounds[i + 1], current, fates, maxBytes)
  }

  /** Once it spins it spins for ever. */
  lemma {:induction false} SpinningLasts(rounds: seq<Shelf>, current: CheckpointId, fates: Fates, maxBytes: nat, n: nat)
    requires IsPruneRun(rounds, current, fates, maxBytes) && n < |rounds| && Spins(rounds[0], current, fates, maxBytes)
    ensures rounds[n] == rounds[0] && !Leaves(rounds[n], current, maxBytes)
  {
    if n > 0 {
      SpinningLasts(rounds, current, fates, maxBytes, n - 1);
      assert Round(rounds[n - 1], rounds[n], current, fates, maxBytes);
    }
  }

  /** The oldest checkpoint, apart from the current one, whose directory cannot be removed. */
  ghost predicate OldestStuck(shelf: Shelf, current: CheckpointId, fates: Fates, o: CheckpointId) {
    && o in shelf && o != current && fates(o) != Gone
    && forall u :: u in shelf && u != current && u != o && fates(u) != Gone ==> Older(shelf, o, u)
  }

  /** What is still referred to when the eviction has reached that checkpoint and done to it what it can. */
  ghost function LeftAt(shelf: Shelf, current: CheckpointId, fates: Fates, o: CheckpointId): Shelf
    requires o in shelf
  {
    map id | id in shelf && (id == current || Older(shelf, o, id) || (id == o && fates(o) == Kept)) :: shelf[id]
  }

  /** Eviction, oldest first, comes to a checkpoint that cannot be removed before the budget is met. */
  ghost predicate CannotFit(shelf: Shelf, current: CheckpointId, fates: Fates, maxBytes: nat) {
    exists o :: OldestStuck(shelf, current, fates, o) && DigestBytes(Referenced(LeftAt(shelf, current, fates, o))) > maxBytes
  }

  /** How far the loop has come: everything evicted could be removed and was older than everything left; at most one
      checkpoint was emptied, the oldest that is left. */
  ghost predicate During(before: Shelf, shelf: Shelf, current: CheckpointId, fates: Fates, emptied: Option<CheckpointId>) {
    && current in before && current in shelf
    && (forall id :: id in shelf ==> id in before && (emptied != Some(id) ==> shelf[id] == before[id]))
    && (forall e :: e in before && e !in shelf ==>
          fates(e) == Gone && forall k :: k in shelf && k != current ==> Older(before, e, k))
    && (emptied.Some? ==>
          && emptied.value in shelf && emptied.value != current && fates(emptied.value) == Emptied
          && shelf[emptied.value] == HOLLOW
          && forall k :: k in shelf && k != current && k != emptied.value ==> Older(before, emptied.value, k))
  }

  /** The oldest that is left was the oldest of those from the start. */
  lemma OldestFromTheStart(before: Shelf, shelf: Shelf, current: CheckpointId, fates: Fates, emptied: Option<CheckpointId>, v: CheckpointId)
    requires During(before, shelf, current, fates, emptied)
    requires Oldest(shelf, shelf.Keys - {current}, v)
    ensures emptied.Some? ==> v == emptied.value
    ensures forall k :: k in shelf && k != current && k != v ==> Older(before, v, k)
  {
    assert emptied.Some? && v != emptied.value ==> Older(shelf, v, emptied.value) && Older(before, emptied.value, v);
    forall k | k in shelf && k != current && k != v ensures Older(before, v, k) {
      assert Older(shelf, v, k);
    }
  }

  lemma DuringNext(before: Shelf, shelf: Shelf, current: CheckpointId, fates: Fates, emptied: Option<CheckpointId>, v: CheckpointId)
    requires During(before, shelf, current, fates, emptied) && Oldest(shelf, shelf.Keys - {current}, v)
    ensures fates(v) == Gone ==> During(before, shelf - {v}, current, fates, emptied)
    ensures fates(v) == Emptied ==> During(before, shelf[v := HOLLOW], current, fates, Some(v))
  {
    OldestFromTheStart(before, shelf, current, fates, emptied, v);
  }

  /** Where the loop is stuck is where the oldest stuck checkpoint says. */
  lemma StuckMeansCannotFit(
    before: Shelf, shelf: Shelf, current: CheckpointId, fates: Fates, emptied: Option<CheckpointId>, v: CheckpointId, maxBytes: nat)
    requires During(before, shelf, current, fates, emptied) && Oldest(shelf, shelf.Keys - {current}, v)
    requires fates(v) != Gone && (fates(v) == Emptied ==> shelf[v] == HOLLOW)
    requires DigestBytes(Referenced(shelf)) > maxBytes
    ensures CannotFit(before, current, fates, maxBytes)
  {
    OldestFromTheStart(before, shelf, current, fates, emptied, v);
    assert OldestStuck(before, current, fates, v);
    var left := LeftAt(before, current, fates, v);
    forall d | d in Referenced(shelf) ensures d in Referenced(left) {
      var id, p :| id in shelf && p in shelf[id].files && shelf[id].files[p].digest == d;
      assert id in left && left[id] == shelf[id];
    }
    DigestBytesMonotone(Referenced(shelf), Referenced(left));
  }

  lemma FitsMeansCanFit(before: Shelf, shelf: Shelf, current: CheckpointId, fates: Fates, emptied: Option<CheckpointId>, maxBytes: nat)
    requires During(before, shelf, current, fates, emptied) && Leaves(shelf, current, maxBytes)
    ensures !CannotFit(before, current, fates, maxBytes)
  {
    forall o | OldestStuck(before, current, fates, o)
      ensures DigestBytes(Referenced(LeftAt(before, current, fates, o))) <= maxBytes
    {
      assert o in shelf;
      var left := LeftAt(before, current, fates, o);
      forall d | d in Referenced(left) ensures d in Referenced(shelf) {
        var id, p :| id in left && p in left[id].files && left[id].files[p].digest == d;
        assert id in shelf && shelf[id] == left[id];
      }
      DigestBytesMonotone(Referenced(left), Referenced(shelf));
    }
  }

  lemma StuckSpins(shelf: Shelf, current: CheckpointId, fates: Fates, v: CheckpointId, maxBytes: nat)
    requires Oldest(shelf, shelf.Keys - {current}, v) && Removed(shelf, v, fates(v)) == shelf
    requires !Leaves(shelf, current, maxBytes)
    ensures Spins(shelf, current, fates, maxBytes)
  {
    forall next | Round(shelf, next, current, fates, maxBytes) ensures next == shelf {
      var u :| Oldest(shelf, shelf.Keys - {current}, u) && next == Removed(shelf, u, fates(u));
      assert u != v ==> Older(shelf, u, v);
    }
  }

  /** One older checkpoint that cannot be removed is enough, when it and the current one do not fit together: the
      current one, which fits alone, is refused nothing and yet its creation never ends. */
  lemma OneStuckCheckpointSuffices(
    stuck: CheckpointId, current: CheckpointId, p: Path, f: File, g: File, fates: Fates, maxBytes: nat)
    requires stuck != current && f.content != g.content && fates(stuck) == Kept
    requires |f.content| <= maxBytes && |g.content| <= maxBytes < |f.content| + |g.content|
    ensures var shelf := map[stuck := Manifest(1, Visible(map[p := f]), true), current := Manifest(2, Visible(map[p := g]), true)];
            && DigestBytes(DigestsOf(shelf[current].files)) <= maxBytes
            && CannotFit(shelf, current, fates, maxBytes)
            && Spins(shelf, current, fates, maxBytes)
  {
    var old_, new_ := Manifest(1, Visible(map[p := f]), true), Manifest(2, Visible(map[p := g]), true);
    var shelf := map[stuck := old_, current := new_];
    var a, b := Sha256(f.content), Sha256(g.content);
    assert shelf[stuck].files[p].digest == a && shelf[current].files[p].digest == b;
    assert DigestsOf(new_.files) == {b} && Referenced(shelf) == {a, b};
    DigestBytesWithout({b}, b);
    DigestBytesWithout({a, b}, a);
    assert {a, b} - {a} == {b} && {b} - {b} == {};
    assert OldestStuck(shelf, current, fates, stuck) && LeftAt(shelf, current, fates, stuck) == shelf;
    StuckSpins(shelf, current, fates, stuck, maxBytes);
  }

  lemma DuringEvictsOldest(before: Shelf, shelf: Shelf, current: CheckpointId, fates: Fates, emptied: Option<CheckpointId>)
    requires During(before, shelf, current, fates, emptied)
    ensures EvictsOldest(before, shelf, current, fates)
  {
  }

  const REQUIRED_TEMP_HEADROOM_BYTES: nat := 1_000_000_000

  predicate Stored(objects: map<Digest, Bytes>, d: Digest) {
    d in objects && Sha256(objects[d]) == d
  }

  /** Every object the restore would write is present and intact. */
  ghost predicate Restorable(objects: map<Digest, Bytes>, work: Tree, expected: Listing) {
    forall p :: p in expected && VersionIn(Visible(work), p) != VersionIn(expected, p) ==> Stored(objects, expected[p].digest)
  }

  /** Afterwards the visible contents and modes are the recorded ones; files that already matched were not touched. */
  ghost predicate RestoredTo(before: Tree, after: Tree, expected: Listing) {
    forall p ::
      && VersionOf(after, p) == VersionIn(expected, p)
      && (VersionOf(before, p) == VersionIn(expected, p) ==> Lookup(after, p) == Lookup(before, p))
  }

  /** A restore that stopped: each path is as it was or as recorded. */
  ghost predicate PartlyRestored(before: Tree, after: Tree, expected: Listing) {
    forall p :: Lookup(after, p) == Lookup(before, p) || VersionOf(after, p) == VersionIn(expected, p)
  }

  function ChangedPaths(work: Tree, expected: Listing): set<Path> {
    set p | p in work.Keys + expected.Keys && VersionOf(work, p) != VersionIn(expected, p)
  }

  lemma ChangedMeaning(objects: map<Digest, Bytes>, work: Tree, expected: Listing)
    ensures forall p :: p in ChangedPaths(work, expected) <==> VersionOf(work, p) != VersionIn(expected, p)
    ensures Restorable(objects, work, expected)
            <==> forall p :: p in ChangedPaths(work, expected) && p in expected ==> Stored(objects, expected[p].digest)
  {
    assert forall p :: VersionIn(Visible(work), p) == VersionOf(work, p);
  }

  /** Read and verify every object before anything is written. */
  method Prepare(objects: map<Digest, Bytes>, expected: Listing, changed: set<Path>) returns (prepared: Option<Tree>)
    ensures prepared.Some? <==> forall p :: p in changed && p in expected ==> Stored(objects, expected[p].digest)
    ensures prepared.Some? ==> forall p :: p in changed && p in expected ==>
              p in prepared.value && prepared.value[p] == File(objects[expected[p].digest], expected[p].mode)
  {
    var ps := SortPaths(changed);
    var tree: Tree := map[];
    for i := 0 to |ps|
      invariant forall p :: p in Walked(ps, i) && p in expected ==>
                  && Stored(objects, expected[p].digest)
                  && p in tree && tree[p] == File(objects[expected[p].digest], expected[p].mode)
    {
      var path := ps[i];
      WalkStep(changed, i);
      if path in expected {
        if !Stored(objects, expected[path].digest) {
          return None;
        }
        tree := tree[path := File(objects[expected[path].digest], expected[path].mode)];
      }
    }
    WalkIsComplete(changed);
    return Some(tree);
  }

  /** What a restore puts at a path it changes. */
  function Restoring(expected: Listing, prepared: Tree, p: Path): Option<File> {
    if p in expected then Lookup(prepared, p) else None
  }

  /** Write or remove the changed paths in order; a path that cannot be written stops the restore, with some of the
      changed paths restored and the others as they were. */
  method WriteBack(work: Volume, expected: Listing, changed: set<Path>, prepared: Tree, faults: set<Path>) returns (failed: Option<Path>)
    requires forall p :: p in changed && p in expected ==> p in prepared
    modifies work
    ensures failed.None? <==> faults !! changed
    ensures failed.Some? ==> failed.value in faults * changed
    ensures failed.None? ==>
              forall p :: Lookup(work.files, p) == (if p in changed then Restoring(expected, prepared, p) else Lookup(old(work.files), p))
    ensures failed.Some? ==>
              forall p :: Lookup(work.files, p) == Lookup(old(work.files), p)
                          || (p in changed && Lookup(work.files, p) == Restoring(expected, prepared, p))
  {
    var ps := SortPaths(changed);
    for i := 0 to |ps|
      invariant forall p :: p in Walked(ps, i) ==> p in changed && p !in faults
      invariant forall p :: Lookup(work.files, p) ==
                  if p in Walked(ps, i) then Restoring(expected, prepared, p) else Lookup(old(work.files), p)
    {
      var path := ps[i];
      WalkStep(changed, i);
      if path in faults {
        return Some(path);
      }
      if path in expected {
        work.files := work.files[path := prepared[path]];
      } else {
        work.files := work.files - {path};
      }
    }
    WalkIsComplete(changed);
    return None;
  }

  lemma RestoreComplete(before: Tree, after: Tree, expected: Listing, changed: set<Path>)
    requires forall p :: p in changed <==> VersionOf(before, p) != VersionIn(expected, p)
    requires forall p :: p !in changed ==> Lookup(after, p) == Lookup(before, p)
    requires forall p :: p in changed && p in expected ==>
               p in after && Sha256(after[p].content) == expected[p].digest && after[p].mode == expected[p].mode
    requires forall p :: p in changed && p !in expected ==> p !in after
    ensures RestoredTo(before, after, expected)
  {
    forall p
      ensures VersionOf(after, p) == VersionIn(expected, p)
      ensures VersionOf(before, p) == VersionIn(expected, p) ==> Lookup(after, p) == Lookup(before, p)
    {
      if p !in changed { assert Lookup(after, p) == Lookup(before, p); }
    }
  }

  class CheckpointStore {
    var objects: map<Digest, Bytes>
    var shelf: Shelf

    constructor ()
      ensures Valid() && shelf == map[]
    {
      objects, shelf := map[], map[];
    }

    /** Every object a retained checkpoint refers to exists and hashes to its name. */
    ghost predicate Valid()
      reads this
    {
      (forall d :: d in objects ==> Sha256(objects[d]) == d) && AllSound(objects, shelf)
    }

    /** The checkpoint can be read. */
    predicate Has(id: CheckpointId)
      reads this
    {
      id in shelf && shelf[id].present
    }

    /** Store the objects a listing needs and the store does not have yet. A file that cannot be stored (it changed
        under the copy, or the write failed) ends the attempt. */
    method StoreObjects(work: Tree, faults: set<Path>) returns (ok: bool)
      requires Valid()
      modifies this`objects
      ensures Valid() && (ok ==> Sound(objects, Visible(work)))
      ensures !ok ==> exists p :: p in work && p in faults && Sha256(work[p].content) !in old(objects)
      ensures forall d :: d in old(objects) ==> d in objects && objects[d] == old(objects)[d]
      ensures forall d :: d in objects ==> d in old(objects) || d in DigestsOf(Visible(work))
    {
      var ps := SortPaths(work.Keys);
      for i := 0 to |ps|
        invariant Valid()
        invariant forall p :: p in Walked(ps, i) && p in work ==> Sha256(work[p].content) in objects
        invariant forall d :: d in old(objects) ==> d in objects && objects[d] == old(objects)[d]
        invariant forall d :: d in objects ==> d in old(objects) || d in DigestsOf(Visible(work))
      {
        var path := ps[i];
        WalkStep(work.Keys, i);
        var digest := Sha256(work[path].content);
        assert Visible(work)[path].digest == digest;
        if digest !in objects {
          if path in faults {
            return false;
          }
          objects := objects[digest := work[path].content];
        }
      }
      WalkIsComplete(work.Keys);
      return true;
    }

    /** Record the visible staging files so that a failed mutation can be rolled back. The pruning that follows never
        finds its budget exhausted: the size was checked before, and deduplicated bytes are no more. But it may not
        come back, exactly when eviction reaches a checkpoint that cannot be removed before the budget is met. `links`
        counts the symbolic links in staging, which are recorded beside the files. */
    method Create(
      work: Tree, links: nat, id: CheckpointId, now: nat, maxFiles: nat, maxBytes: nat, maxCount: nat, free: nat,
      faults: set<Path>, fates: Fates, locked: set<Digest>)
      returns (r: Result<CheckpointId, CheckpointError>)
      requires Valid() && id !in shelf
      modifies this
      ensures Valid()
      ensures r == Err(LimitExceeded) <==>
                !(&& |work| + links <= maxFiles && TotalBytes(Visible(work)) <= maxBytes
                  && free > TotalBytes(Visible(work)) + 1_000_000_000)
      ensures r.Err? ==> r.error == LimitExceeded || r.error == NotStored || r.error.NeverReturns?
      ensures r == Err(LimitExceeded) || r == Err(NotStored) ==> shelf == old(shelf)
      ensures r == Err(LimitExceeded) ==> objects == old(objects)
      ensures r == Err(NotStored) ==> exists p :: p in work && p in faults && Sha256(work[p].content) !in old(objects)
      ensures r == Err(NotStored) ==> forall d :: d in old(objects) ==> d in objects && objects[d] == old(objects)[d]
      ensures r.Ok? || (r.Err? && r.error.NeverReturns?) ==>
                && Lookup(shelf, id) == Some(Manifest(now, Visible(work), true))
                && PruneOutcome(old(shelf)[id := Manifest(now, Visible(work), true)], shelf, objects, id, AtLeastOne(maxCount), fates,
                                locked, maxBytes, if r.Ok? then Fits else Stuck(r.error.checkpoint))
    {
      var files := Visible(work);
      var total := MeasureListing(files);
      assert |files| == |work| by { assert files.Keys == work.Keys; }
      if |files| + links > maxFiles || total > maxBytes {
        return Err(LimitExceeded);
      }
      if free <= total + REQUIRED_TEMP_HEADROOM_BYTES {
        return Err(LimitExceeded);
      }
      var stored := StoreObjects(work, faults);
      if !stored {
        return Err(NotStored);
      }
      shelf := shelf[id := Manifest(now, files, true)];
      ghost var begun := shelf;
      DedupNeverGrows(files);
      var end := Prune(id, maxCount, maxBytes, fates, locked);
      assert DigestsOf(begun[id].files) == DigestsOf(files);
      assert id in Intact(begun, shelf);
      return if end.Stuck? then Err(NeverReturns(end.checkpoint)) else Ok(id);
    }

    /** `restore_checkpoint`: check the limits, verify every object it will need, and only then write. It
        does not rely on the store being sound. */
    method Restore(work: Volume, id: CheckpointId, maxFiles: nat, maxBytes: nat, faults: set<Path>) returns (r: Result<set<Path>, CheckpointError>)
      modifies work
      ensures r != Err(NotStored) && !(r.Err? && r.error.NeverReturns?)
      ensures r == Err(NotFound) <==> !Has(id)
      ensures r == Err(LimitExceeded) <==>
                Has(id) && (|shelf[id].files| > maxFiles || TotalBytes(shelf[id].files) > maxBytes)
      ensures r == Err(Corrupt) <==>
                && Has(id) && |shelf[id].files| <= maxFiles && TotalBytes(shelf[id].files) <= maxBytes
                && !Restorable(objects, old(work.files), shelf[id].files)
      ensures r.Err? && r.error.NotWritten? <==>
                && Has(id) && |shelf[id].files| <= maxFiles && TotalBytes(shelf[id].files) <= maxBytes
                && Restorable(objects, old(work.files), shelf[id].files)
                && !(faults !! ChangedPaths(old(work.files), shelf[id].files))
      ensures r.Err? && !r.error.NotWritten? ==> work.files == old(work.files)
      ensures r.Err? && r.error.NotWritten? ==> Has(id) && PartlyRestored(old(work.files), work.files, shelf[id].files)
      ensures r.Ok? ==> Has(id) && RestoredTo(old(work.files), work.files, shelf[id].files)
    {
      if id !in shelf || !shelf[id].present {
        return Err(NotFound);
      }
      var expected := shelf[id].files;
      var total := MeasureListing(expected);
      if |expected| > maxFiles || total > maxBytes {
        return Err(LimitExceeded);
      }
      var changed := ChangedPaths(work.files, expected);
      var prepared := Prepare(objects, expected, changed);
      ChangedMeaning(objects, work.files, expected);
      if prepared == None {
        return Err(Corrupt);
      }
      var failed := WriteBack(work, expected, changed, prepared.value, faults);
      if failed.Some? {
        return Err(NotWritten(failed.value));
      }
      RestoreComplete(old(work.files), work.files, expected, changed);
      return Ok(changed);
    }

    /** `_prune`: first by count, then by bytes, oldest first; then drop the unreferenced objects. */
    method Prune(current: CheckpointId, maxCount: nat, maxBytes: nat, fates: Fates, locked: set<Digest>) returns (end: PruneEnd)
      requires Valid() && current in shelf
      modifies this
      ensures Valid()
      ensures forall d :: d in objects ==> d in old(objects) && objects[d] == old(objects)[d]
      ensures PruneOutcome(old(shelf), shelf, objects, current, AtLeastOne(maxCount), fates, locked, maxBytes, end)
    {
      PruneByCount(current, AtLeastOne(maxCount), fates);
      ghost var counted := shelf;
      end := PruneByBytes(current, maxBytes, fates, locked);
      EvictTwice(old(shelf), counted, shelf, current, fates);
    }

    /** Evict the oldest checkpoint until the referenced bytes fit, then drop the unreferenced objects. `Stuck` stands
        for a call that does not come back: the loop has reached a state that no further round changes. */
    method PruneByBytes(current: CheckpointId, maxBytes: nat, fates: Fates, locked: set<Digest>) returns (end: PruneEnd)
      requires Valid() && current in shelf
      modifies this
      ensures Valid() && current in shelf && shelf[current] == old(shelf)[current]
      ensures forall d :: d in objects ==> d in old(objects) && objects[d] == old(objects)[d]
      ensures EvictsOldest(old(shelf), shelf, current, fates)
      ensures end.Stuck? <==> CannotFit(old(shelf), current, fates, maxBytes)
      ensures end.Stuck? ==> Spins(shelf, current, fates, maxBytes)
      ensures end == Fits ==>
                && DigestBytes(Referenced(shelf)) <= maxBytes
                && Referenced(shelf) <= objects.Keys <= Referenced(shelf) + locked
                && (shelf == old(shelf) || NeededLast(old(shelf), shelf, maxBytes))
      ensures end == Exhausted ==> shelf.Keys == {current} && DigestBytes(DigestsOf(shelf[current].files)) > maxBytes
    {
      ghost var emptied: Option<CheckpointId> := None;
      while true
        invariant AllSound(objects, shelf) && objects == old(objects)
        invariant During(old(shelf), shelf, current, fates, emptied)
        invariant shelf == old(shelf) || NeededLast(old(shelf), shelf, maxBytes)
        decreases |shelf|, emptied.None?
      {
        DuringEvictsOldest(old(shelf), shelf, current, fates, emptied);
        var referenced := Referenced(shelf);
        var total := MeasureObjects(referenced);
        if total <= maxBytes {
          FitsMeansCanFit(old(shelf), shelf, current, fates, emptied, maxBytes);
          DropUnreferenced(referenced, locked);
          return Fits;
        }
        var removable := shelf.Keys - {current};
        if removable == {} {
          OnlyCurrent(shelf, current);
          FitsMeansCanFit(old(shelf), shelf, current, fates, emptied, maxBytes);
          return Exhausted;
        }
        var v := PickOldest(shelf, removable);
        var next := Removed(shelf, v, fates(v));
        if next == shelf {
          StuckMeansCannotFit(old(shelf), shelf, current, fates, emptied, v, maxBytes);
          StuckSpins(shelf, current, fates, v, maxBytes);
          return Stuck(v);
        }
        RemovedSize(shelf, v, fates(v));
        emptied := RoundProgress(old(shelf), shelf, next, objects, v, current, fates, emptied, maxBytes);
        shelf := next;
      }
    }

    /** Some objects cannot be deleted while another process holds them; they wait for the next prune. */
    method DropUnreferenced(referenced: set<Digest>, locked: set<Digest>)
      requires Valid() && referenced == Referenced(shelf)
      modifies this`objects
      ensures Valid()
      ensures referenced <= objects.Keys <= referenced + locked
      ensures forall d :: d in objects ==> d in old(objects) && objects[d] == old(objects)[d]
    {
      ReferencedExist(objects, shelf);
      objects := map d | d in objects && (d in referenced || d in locked) :: objects[d];
      forall id | id in shelf ensures Sound(objects, shelf[id].files) {
        assert Sound(old(objects), shelf[id].files);
        forall p | p in shelf[id].files ensures shelf[id].files[p].digest in referenced {
        }
      }
    }

    /** Keep the newest `keep` checkpoints, and the current one wherever it stands; of the others those stay, perhaps
        emptied, that cannot be removed. */
    method PruneByCount(current: CheckpointId, keep: nat, fates: Fates)
      requires Valid() && current in shelf && keep >= 1
      modifies this`shelf
      ensures Valid() && current in shelf && shelf[current] == old(shelf)[current]
      ensures shelf == AfterCount(old(shelf), current, keep, fates)
      ensures EvictsOldest(old(shelf), shelf, current, fates)
    {
      var ids := SortByAge(shelf);
      var first := if |ids| > keep then |ids| - keep else 0;
      for i := 0 to |ids|
        invariant AllSound(objects, shelf)
        invariant CountedUpTo(old(shelf), shelf, ids, i, first, current, fates)
      {
        if i < first && ids[i] != current {
          RemovedIsSound(objects, shelf, ids[i], fates(ids[i]));
          CountOne(old(shelf), shelf, ids, i, first, current, fates);
          shelf := Removed(shelf, ids[i], fates(ids[i]));
        }
      }
      CountedIs(old(shelf), shelf, ids, first, current, keep, fates);
    }
  }

  /** How a prune ends. Whatever can be removed goes oldest first; what the count leaves is evicted only as the budget
      forces it; and the call does not come back exactly when eviction cannot meet the budget. */
  ghost predicate PruneOutcome(
    before: Shelf, after: Shelf, objects: map<Digest, Bytes>, current: CheckpointId, keep: nat, fates: Fates, locked: set<Digest>,
    maxBytes: nat, end: PruneEnd)
  {
    && EvictsOldest(before, after, current, fates)
    && (end.Stuck? <==> CannotFit(AfterCount(before, current, keep, fates), current, fates, maxBytes))
    && match end
       case Stuck(_) => Spins(after, current, fates, maxBytes)
       case Fits =>
         && DigestBytes(Referenced(after)) <= maxBytes
         && Referenced(after) <= objects.Keys <= Referenced(after) + locked
         && NothingEvictedInVain(before, after, current, keep, fates, maxBytes)
       case Exhausted =>
         current in before && after.Keys == {current} && DigestBytes(DigestsOf(before[current].files)) > maxBytes
  }

  datatype PruneEnd = Fits | Exhausted | Stuck(checkpoint: CheckpointId)

  function AfterRemoval(shelf: Shelf, id: CheckpointId, fate: Removal): Option<Manifest>
    requires id in shelf
  {
    match fate case Gone => None case Kept => Some(shelf[id]) case Emptied => Some(HOLLOW)
  }

  /** The first `n` directories have been dealt with; of those, the first `first` are victims. */
  ghost predicate CountedUpTo(
    before: Shelf, after: Shelf, ids: seq<CheckpointId>, n: nat, first: nat, current: CheckpointId, fates: Fates)
  {
    && (forall k :: 0 <= k < |ids| ==>
          && ids[k] in before
          && Lookup(after, ids[k]) == AfterRemoval(before, ids[k], if k < n && k < first && ids[k] != current then fates(ids[k]) else Kept))
    && (forall id :: id in after ==> id in before)
    && (forall i, j :: 0 <= i < j < |ids| ==> ids[i] != ids[j])
  }

  lemma CountOne(before: Shelf, shelf: Shelf, ids: seq<CheckpointId>, n: nat, first: nat, current: CheckpointId, fates: Fates)
    requires n < |ids| && n < first && ids[n] != current && CountedUpTo(before, shelf, ids, n, first, current, fates)
    ensures ids[n] in shelf && CountedUpTo(before, Removed(shelf, ids[n], fates(ids[n])), ids, n + 1, first, current, fates)
  {
  }

  lemma CountedIs(
    before: Shelf, after: Shelf, ids: seq<CheckpointId>, first: nat, current: CheckpointId, keep: nat, fates: Fates)
    requires current in before && ByAge(before, ids) && forall id :: id in ids <==> id in before
    requires first == if |ids| > keep then |ids| - keep else 0
    requires CountedUpTo(before, after, ids, |ids|, first, current, fates)
    ensures after == AfterCount(before, current, keep, fates)
    ensures EvictsOldest(before, after, current, fates)
  {
    forall id ensures Lookup(after, id) == Lookup(AfterCount(before, current, keep, fates), id) {
      if id in before {
        var k :| 0 <= k < |ids| && ids[k] == id;
        PlaceIsNewer(before, ids, k);
      }
    }
    SameLookupsSameMap(after, AfterCount(before, current, keep, fates));
    CountEvictsOldest(before, after, ids, first, current, fates);
  }

  lemma CountEvictsOldest(before: Shelf, after: Shelf, ids: seq<CheckpointId>, first: nat, current: CheckpointId, fates: Fates)
    requires current in before && ByAge(before, ids) && forall id :: id in ids <==> id in before
    requires CountedUpTo(before, after, ids, |ids|, first, current, fates)
    ensures EvictsOldest(before, after, current, fates)
  {
    forall id | id in before
      ensures fates(id) != Gone ==> id in after
      ensures id in after ==> after[id] == before[id] || (after[id] == HOLLOW && fates(id) == Emptied)
      ensures id == current ==> id in Intact(before, after)
    {
      var k :| 0 <= k < |ids| && ids[k] == id;
    }
    forall v, k | v in before && v !in Intact(before, after) && k in after && k != current && fates(k) == Gone
      ensures Older(before, v, k)
    {
      var i :| 0 <= i < |ids| && ids[i] == v;
      var j :| 0 <= j < |ids| && ids[j] == k;
      assert i < first <= j;
    }
  }

  /** The victim had to go, and with it goes nothing else. */
  lemma EvictForced(
    before: Shelf, shelf: Shelf, next: Shelf, v: CheckpointId, current: CheckpointId, fates: Fates, emptied: Option<CheckpointId>,
    maxBytes: nat)
    requires During(before, shelf, current, fates, emptied) && v in shelf && next == Removed(shelf, v, fates(v)) != shelf
    requires emptied.Some? ==> v == emptied.value
    requires DigestBytes(Referenced(shelf)) > maxBytes
    ensures emptied.None? && NeededLast(before, next, maxBytes)
  {
    assert shelf[v := shelf[v]] == shelf;
    assert Only(before, Intact(before, next) + {v}) == shelf;
  }

  lemma RoundProgress(
    before: Shelf, shelf: Shelf, next: Shelf, objects: map<Digest, Bytes>, v: CheckpointId, current: CheckpointId, fates: Fates,
    emptied: Option<CheckpointId>, maxBytes: nat)
    returns (after: Option<CheckpointId>)
    requires During(before, shelf, current, fates, emptied) && AllSound(objects, shelf)
    requires Oldest(shelf, shelf.Keys - {current}, v) && next == Removed(shelf, v, fates(v)) != shelf
    requires DigestBytes(Referenced(shelf)) > maxBytes
    ensures During(before, next, current, fates, after) && AllSound(objects, next) && NeededLast(before, next, maxBytes)
    ensures (fates(v) == Emptied && emptied.None? && after.Some?) || (fates(v) == Gone && after == emptied)
  {
    OldestFromTheStart(before, shelf, current, fates, emptied, v);
    DuringNext(before, shelf, current, fates, emptied, v);
    RemovedIsSound(objects, shelf, v, fates(v));
    EvictForced(before, shelf, next, v, current, fates, emptied, maxBytes);
    after := if fates(v) == Emptied then Some(v) else emptied;
  }

  lemma RemovedSize(shelf: Shelf, v: CheckpointId, fate: Removal)
    requires v in shelf
    ensures |Removed(shelf, v, fate)| == if fate == Gone then |shelf| - 1 else |shelf|
  {
    var next := Removed(shelf, v, fate);
    assert |next.Keys| == |next| && |shelf.Keys| == |shelf|;
    assert next.Keys == if fate == Gone then shelf.Keys - {v} else shelf.Keys;
  }

  lemma OnlyCurrent(shelf: Shelf, current: CheckpointId)
    requires current in shelf && shelf.Keys - {current} == {}
    ensures shelf.Keys == {current} && Referenced(shelf) == DigestsOf(shelf[current].files)
  {
    forall id | id in shelf ensures id == current {
      assert id !in shelf.Keys - {current};
    }
    assert shelf.Keys == {current};
  }

  lemma ReferencedExist(objects: map<Digest, Bytes>, shelf: Shelf)
    requires forall id :: id in shelf ==> Sound(objects, shelf[id].files)
    ensures Referenced(shelf) <= objects.Keys
  {
  }
}
