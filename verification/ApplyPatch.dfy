/** `apply_patch`: several file operations under one checkpoint, all of them or none. */
module ApplyPatch {
  import opened Common
  import opened Paths
  import opened Staging
  import opened Drift
  import opened Checkpoints
  import StreamEdit
  import LineEndings
  import Paging
  import Utf8
  import Replacing

  datatype Operation =
    | Write(path: Path, content: Bytes, expected: Option<Digest>)
    | Edit(path: Path, edit: StreamEdit.Edit, expected: Option<Digest>)
    | Delete(path: Path, expected: Option<Digest>)

  datatype Limits = Limits(operations: nat, payload: nat, write: nat, editTarget: nat, editResult: nat,
                           staging: Option<nat>, newMode: nat)

  /** `NeverReturns` stands for a call that does not come back from pruning the checkpoints. */
  datatype PatchError = Refused | OperationFailed(index: nat) | NoCheckpoint | NeverReturns | NotRolledBack(index: nat)

  /** Where an operation may be cut short for a reason outside its own checks. */
  datatype Interruption = Uninterrupted | BeforeWriting | AfterWriting

  // ---- one operation on one file ----

  /** `check_expected_sha256` */
  predicate AsExpected(current: Option<File>, expected: Option<Digest>) {
    expected.None? || (current.Some? && expected.value == Sha256(current.value.content))
  }

  predicate WriteLands(current: Option<File>, content: Bytes, expected: Option<Digest>, limits: Limits) {
    && Paging.Readable(content) && |content| <= limits.write
    && (limits.staging.Some? ==> |content| <= limits.staging.value)
    && AsExpected(current, expected)
    && (current.Some? ==>
          && Paging.Readable(current.value.content)
          && (expected.Some? || !StreamEdit.ShrinkWarning(current.value.content,
                LineEndings.Sizes(|content|, LineEndings.Newlines(content) + 1))))
  }

  /** What an operation makes of the one file it names; `None` if it is refused. */
  function After(current: Option<File>, op: Operation, limits: Limits): Option<Option<File>> {
    match op
    case Write(_, content, expected) =>
      if !WriteLands(current, content, expected, limits) then None
      else Some(Some(File(content, if current.Some? then current.value.mode else limits.newMode)))
    case Edit(_, edit, expected) =>
      if current.None? || !AsExpected(current, expected) then None
      else if !StreamEdit.EditLands(current.value.content, edit, limits.editTarget, limits.editResult) then None
      else Some(Some(current.value.(content := StreamEdit.Edited(current.value.content, edit))))
    case Delete(_, expected) =>
      if current.None? || !AsExpected(current, expected) then None else Some(None)
  }

  /** When a write lands, and what it leaves: text without NUL within the limits, the expected hash that of the file there
      is, that file text too, and no large shrink unless the hash was given; a file keeps its mode, a new one gets the
      default. */
  lemma WriteMeaning(current: Option<File>, p: Path, content: Bytes, expected: Option<Digest>, limits: Limits)
    ensures var after := After(current, Write(p, content, expected), limits);
            && (after.Some? <==>
                  && Utf8.IsText(content) && 0 !in content && |content| <= limits.write
                  && (limits.staging.Some? ==> |content| <= limits.staging.value)
                  && (expected.Some? ==> current.Some? && Sha256(current.value.content) == expected.value)
                  && (current.Some? ==>
                        var was := current.value.content;
                        && Utf8.IsText(was) && 0 !in was
                        && !(&& expected.None? && |was| >= 200 && LineEndings.LineCount(was) >= 20 && 2 * |content| < |was|
                             && 2 * (multiset(content)[10] + 1) < LineEndings.LineCount(was))))
            && (after.Some? ==>
                  && after.value.Some? && after.value.value.content == content
                  && after.value.value.mode == if current.Some? then current.value.mode else limits.newMode)
  {
    LineEndings.NewlinesCounted(content);
  }

  /** When an edit lands, and what it leaves: the file is there, of the expected hash, text without NUL within the limit,
      and holds the settled old string as often as expected; every match is replaced and the mode stays. */
  lemma EditMeaning(current: Option<File>, p: Path, e: StreamEdit.Edit, expected: Option<Digest>, limits: Limits)
    ensures var after := After(current, Edit(p, e, expected), limits);
            && (after.Some? ==>
                  && current.Some? && (expected.Some? ==> Sha256(current.value.content) == expected.value)
                  && e.old_ != [] && Utf8.IsText(current.value.content) && 0 !in current.value.content
                  && |current.value.content| <= limits.editTarget
                  && after.value.Some? && after.value.value.mode == current.value.mode
                  && |after.value.value.content| <= limits.editResult
                  && var pair := StreamEdit.Settled(current.value.content, e);
                     && Replacing.Count(current.value.content, pair.0) == e.expected
                     && after.value.value.content == Replacing.Replace(current.value.content, pair.0, pair.1))
            && (after.None? <==>
                  || current.None? || (expected.Some? && Sha256(current.value.content) != expected.value)
                  || !StreamEdit.EditLands(current.value.content, e, limits.editTarget, limits.editResult))
  {
  }

  /** A delete lands exactly on a file that is there, of the expected hash. */
  lemma DeleteMeaning(current: Option<File>, p: Path, expected: Option<Digest>, limits: Limits)
    ensures After(current, Operation.Delete(p, expected), limits)
            == if current.Some? && (expected.Some? ==> Sha256(current.value.content) == expected.value) then Some(None) else None
  {
  }

  /** `_apply_one` */
  method ApplyOne(work: Volume, op: Operation, limits: Limits) returns (ok: bool)
    modifies work
    ensures var after := After(Lookup(old(work.files), op.path), op, limits);
            && (ok <==> after.Some?)
            && work.files == if ok then Put(old(work.files), op.path, after.value) else old(work.files)
  {
    var current := Lookup(work.files, op.path);
    match op
    case Write(path, content, expected) =>
      if !WriteLands(current, content, expected, limits) {
        return false;
      }
      work.files := work.files[path := File(content, if current.Some? then current.value.mode else limits.newMode)];
      return true;
    case Edit(path, edit, expected) =>
      if current.None? || !AsExpected(current, expected) {
        return false;
      }
      assert Flatten([current.value.content]) == current.value.content;
      var applied := StreamEdit.ApplyEdit([current.value.content], edit, limits.editTarget, limits.editResult);
      if applied.Err? {
        return false;
      }
      work.files := work.files[path := current.value.(content := applied.value.content)];
      return true;
    case Delete(path, expected) =>
      if current.None? || !AsExpected(current, expected) {
        return false;
      }
      work.files := work.files - {path};
      return true;
  }

  // ---- the whole patch ----

  datatype Outcome = Finished(tree: Tree) | Stopped(index: nat, tree: Tree)

  function Turn(t: Tree, op: Operation, n: nat, limits: Limits, cut: Interruption): Outcome {
    var after := After(Lookup(t, op.path), op, limits);
    if cut == BeforeWriting || after.None? then Stopped(n, t)
    else
      var next := Put(t, op.path, after.value);
      if cut == AfterWriting then Stopped(n, next) else Finished(next)
  }

  /** The first `n` operations in order, each on what the previous one left. */
  function Outcomes(t: Tree, ops: seq<Operation>, n: nat, limits: Limits, cuts: nat -> Interruption): Outcome
    requires n <= |ops|
  {
    if n == 0 then Finished(t) else
      match Outcomes(t, ops, n - 1, limits, cuts)
      case Stopped(i, u) => Stopped(i, u)
      case Finished(u) => Turn(u, ops[n - 1], n - 1, limits, cuts(n - 1))
  }

  /** No operation of a patch that lands was applied to content other than the one its caller named: each found a file
      of the expected hash where the operations before it had left off. */
  lemma {:induction false} LandedPatchMetExpectations(
    t: Tree, ops: seq<Operation>, n: nat, limits: Limits, cuts: nat -> Interruption, i: nat)
    requires i < n <= |ops| && Outcomes(t, ops, n, limits, cuts).Finished? && ops[i].expected.Some?
    ensures Outcomes(t, ops, i, limits, cuts).Finished?
    ensures var found := Outcomes(t, ops, i, limits, cuts).tree;
            ops[i].path in found && Sha256(found[ops[i].path].content) == ops[i].expected.value
  {
    if i < n - 1 {
      LandedPatchMetExpectations(t, ops, n - 1, limits, cuts, i);
    } else {
      LandedOpMetExpectation(Lookup(Outcomes(t, ops, i, limits, cuts).tree, ops[i].path), ops[i], limits);
    }
  }

  lemma LandedOpMetExpectation(current: Option<File>, op: Operation, limits: Limits)
    requires After(current, op, limits).Some? && op.expected.Some?
    ensures current.Some? && Sha256(current.value.content) == op.expected.value
  {
    match op
    case Write(p, content, expected) => WriteMeaning(current, p, content, expected, limits);
    case Edit(p, e, expected) => EditMeaning(current, p, e, expected, limits);
    case Delete(p, expected) => DeleteMeaning(current, p, expected, limits);
  }

  function PayloadOf(op: Operation): nat {
    match op
    case Write(_, content, _) => |content|
    case Edit(_, edit, _) => |edit.old_| + |edit.new_|
    case Delete(_, _) => 0
  }

  function Payload(ops: seq<Operation>): nat {
    if ops == [] then 0 else Payload(ops[..|ops| - 1]) + PayloadOf(ops[|ops| - 1])
  }

  /** What counts against the payload limit: the content of a write, both strings of an edit, nothing of a delete. */
  lemma PayloadOfOneMore(ops: seq<Operation>, op: Operation)
    ensures Payload([]) == 0
    ensures Payload(ops + [op]) == Payload(ops)
            + (if op.Write? then |op.content| else if op.Edit? then |op.edit.old_| + |op.edit.new_| else 0)
  {
    assert (ops + [op])[..|ops|] == ops;
  }

  method PatchPayloadBytes(ops: seq<Operation>) returns (total: nat)
    ensures total == Payload(ops)
  {
    total := 0;
    for n := 0 to |ops|
      invariant total == Payload(ops[..n])
    {
      assert ops[..n + 1][..n] == ops[..n];
      total := total + PayloadOf(ops[n]);
    }
    assert ops[..|ops|] == ops;
  }

  predicate Accepted(ops: seq<Operation>, limits: Limits) {
    ops != [] && |ops| <= limits.operations && Payload(ops) <= limits.payload
  }

  /** The checkpoint's limits and circumstances: links in staging, files that cannot be stored, files that a rollback
      cannot write, what removing older checkpoints achieves, and objects that cannot be deleted. */
  datatype Room = Room(
    id: CheckpointId, now: nat, maxFiles: nat, maxBytes: nat, free: nat, links: nat, unstorable: set<Path>, unwritable: set<Path>,
    fates: Fates, locked: set<Digest>)

  ghost predicate CanCheckpoint(t: Tree, room: Room) {
    && |t| + room.links <= room.maxFiles && TotalBytes(Visible(t)) <= room.maxBytes
    && room.free > TotalBytes(Visible(t)) + REQUIRED_TEMP_HEADROOM_BYTES
  }

  /** With the new checkpoint on the shelf and the count pruned, eviction can meet the byte budget. */
  ghost predicate PruningEnds(shelf: Shelf, t: Tree, room: Room) {
    var begun := shelf[room.id := Manifest(room.now, Visible(t), true)];
    !CannotFit(AfterCount(begun, room.id, 8, room.fates), room.id, room.fates, room.maxBytes)
  }

  /** `checkpointed` restores with the module's default limits, whatever limits the checkpoint was created with. */
  ghost predicate WithinDefaults(t: Tree) {
    |t| <= DEFAULT_MAX_CHECKPOINT_FILES && TotalBytes(Visible(t)) <= DEFAULT_MAX_CHECKPOINT_BYTES
  }

  /** What a sound checkpoint recorded can be written back over any later state. */
  lemma SoundIsRestorable(objects: map<Digest, Bytes>, work: Tree, l: Listing)
    requires Sound(objects, l)
    ensures Restorable(objects, work, l)
  {
  }

  lemma RestoredIsOriginal(before: Tree, after: Tree, original: Tree)
    requires RestoredTo(before, after, Visible(original))
    ensures after == original
  {
    forall p ensures Lookup(after, p) == Lookup(original, p) {
      assert VersionOf(after, p) == VersionIn(Visible(original), p);
    }
    SameLookupsSameMap(after, original);
  }

  /** The rollback can be carried out: within the default limits, and every file it has to write can be written. */
  ghost predicate CanRollBack(original: Tree, now: Tree, unwritable: set<Path>) {
    WithinDefaults(original) && unwritable !! ChangedPaths(now, Visible(original))
  }

  /** Each path is as it was or as it had been originally. */
  ghost predicate Mixed(now: Tree, original: Tree, after: Tree) {
    forall p :: Lookup(after, p) == Lookup(now, p) || Lookup(after, p) == Lookup(original, p)
  }

  lemma PartlyRestoredIsMixed(now: Tree, original: Tree, after: Tree)
    requires PartlyRestored(now, after, Visible(original))
    ensures Mixed(now, original, after)
  {
    forall p ensures Lookup(after, p) == Lookup(now, p) || Lookup(after, p) == Lookup(original, p) {
      assert Lookup(after, p) == Lookup(now, p) || VersionOf(after, p) == VersionIn(Visible(original), p);
    }
  }

  /** Restore the checkpoint after a failure. */
  method RollBack(work: Volume, store: CheckpointStore, id: CheckpointId, ghost original: Tree, unwritable: set<Path>) returns (ok: bool)
    requires store.Valid() && store.Has(id) && store.shelf[id].files == Visible(original)
    modifies work
    ensures ok <==> CanRollBack(original, old(work.files), unwritable)
    ensures ok <==> && |original| <= 300_000 && TotalBytes(Visible(original)) <= 2_500_000_000
                    && unwritable !! ChangedPaths(old(work.files), Visible(original))
    ensures ok ==> work.files == original
    ensures !WithinDefaults(original) ==> work.files == old(work.files)
    ensures Mixed(old(work.files), original, work.files)
  {
    assert |Visible(original)| == |original| by { assert Visible(original).Keys == original.Keys; }
    var restored := store.Restore(work, id, DEFAULT_MAX_CHECKPOINT_FILES, DEFAULT_MAX_CHECKPOINT_BYTES, unwritable);
    assert Sound(store.objects, store.shelf[id].files);
    SoundIsRestorable(store.objects, old(work.files), store.shelf[id].files);
    if restored.Err? {
      if restored.error.NotWritten? {
        PartlyRestoredIsMixed(old(work.files), original, work.files);
      }
      return false;
    }
    RestoredIsOriginal(old(work.files), work.files, original);
    return true;
  }

  /** `apply_patch`. It leaves exactly the outcome of all its operations, or exactly the files it found. There are two
      exceptions, both of a failed patch: staging beyond the default restore limits, where it leaves what the failing
      operation saw, and a rollback that cannot write a file, where each file is as that operation saw it or as found. */
  method ApplyPatch(work: Volume, store: CheckpointStore, ops: seq<Operation>, limits: Limits, room: Room, cuts: nat -> Interruption)
    returns (r: Result<CheckpointId, PatchError>)
    requires store.Valid() && room.id !in store.shelf
    modifies work, store
    ensures store.Valid()
    ensures var outcome := Outcomes(old(work.files), ops, |ops|, limits, cuts);
            && (r == Err(Refused) <==> !Accepted(ops, limits))
            && (Accepted(ops, limits) && !CanCheckpoint(old(work.files), room) ==> r == Err(NoCheckpoint))
            && (r == Err(NoCheckpoint) ==>
                  !CanCheckpoint(old(work.files), room) ||
                  exists p :: p in old(work.files) && p in room.unstorable && Sha256(old(work.files)[p].content) !in old(store.objects))
            && (r == Err(PatchError.NeverReturns) <==>
                  && Accepted(ops, limits) && CanCheckpoint(old(work.files), room) && r != Err(NoCheckpoint)
                  && !PruningEnds(old(store.shelf), old(work.files), room))
            && (r.Ok? ==> outcome == Finished(work.files))
            && (r.Err? && r.error.OperationFailed? ==>
                  outcome == Stopped(r.error.index, outcome.tree) && CanRollBack(old(work.files), outcome.tree, room.unwritable))
            && (r.Err? && r.error.NotRolledBack? ==>
                  && outcome == Stopped(r.error.index, outcome.tree) && !CanRollBack(old(work.files), outcome.tree, room.unwritable)
                  && Mixed(outcome.tree, old(work.files), work.files)
                  && (!WithinDefaults(old(work.files)) ==> work.files == outcome.tree))
            && (r.Err? && !r.error.NotRolledBack? ==> work.files == old(work.files))
  {
    var payload := PatchPayloadBytes(ops);
    if ops == [] || |ops| > limits.operations || payload > limits.payload {
      return Err(Refused);
    }
    ghost var original := work.files;
    ghost var shelf0 := store.shelf;
    var created := store.Create(work.files, room.links, room.id, room.now, room.maxFiles, room.maxBytes, DEFAULT_MAX_CHECKPOINTS, room.free,
                                room.unstorable, room.fates, room.locked);
    assert created.Ok? ==> PruningEnds(shelf0, original, room);
    if created.Err? {
      return Err(if created.error.NeverReturns? then PatchError.NeverReturns else NoCheckpoint);
    }
    var failed := RunOperations(work, ops, limits, cuts);
    if failed.Some? {
      var ok := RollBack(work, store, room.id, original, room.unwritable);
      return Err(if ok then OperationFailed(failed.value) else NotRolledBack(failed.value));
    }
    return Ok(room.id);
  }

  method RunOperations(work: Volume, ops: seq<Operation>, limits: Limits, cuts: nat -> Interruption) returns (failed: Option<nat>)
    modifies work
    ensures Outcomes(old(work.files), ops, |ops|, limits, cuts) ==
            if failed.None? then Finished(work.files) else Stopped(failed.value, work.files)
  {
    for n := 0 to |ops|
      invariant Outcomes(old(work.files), ops, n, limits, cuts) == Finished(work.files)
    {
      if cuts(n) == BeforeWriting {
        StoppedStays(old(work.files), ops, n + 1, limits, cuts);
        return Some(n);
      }
      var ok := ApplyOne(work, ops[n], limits);
      if !ok || cuts(n) == AfterWriting {
        StoppedStays(old(work.files), ops, n + 1, limits, cuts);
        return Some(n);
      }
    }
    return None;
  }

  lemma {:induction false} StoppedStays(t: Tree, ops: seq<Operation>, n: nat, limits: Limits, cuts: nat -> Interruption)
    requires n <= |ops| && Outcomes(t, ops, n, limits, cuts).Stopped?
    ensures Outcomes(t, ops, |ops|, limits, cuts) == Outcomes(t, ops, n, limits, cuts)
    decreases |ops| - n
  {
    if n < |ops| {
      StoppedStays(t, ops, n + 1, limits, cuts);
    }
  }

  /** The limits of the "large-workspace" profile. */
  const LARGE_MAX_STAGED_FILES: nat := 750_000
  const LARGE_MAX_CHECKPOINT_BYTES: nat := 3_000_000_000

  lemma OneFileBytes(p: Path, f: File)
    ensures TotalBytes(Visible(map[p := f])) == |f.content|
  {
    var l := Visible(map[p := f]);
    assert l.Keys == {p};
    SortedMeaning({p});
    AscendingIsUnique(Sorted({p}), [p]);
    assert ListingBytes(l, [p], 1) == ListingBytes(l, [p], 0) + l[p].size;
  }

  /** A profile that allows more staging than the default restore limits cover has patches it cannot take back:
      deleting one such file twice fails on the second operation, and the file is gone. */
  lemma LargeStagingIsLeftHalfDone(p: Path, f: File, limits: Limits, room: Room)
    requires DEFAULT_MAX_CHECKPOINT_BYTES < |f.content| <= LARGE_MAX_CHECKPOINT_BYTES
    requires room.maxFiles == LARGE_MAX_STAGED_FILES && room.maxBytes == LARGE_MAX_CHECKPOINT_BYTES
    requires room.free > LARGE_MAX_CHECKPOINT_BYTES + REQUIRED_TEMP_HEADROOM_BYTES && room.links < room.maxFiles
    requires limits.operations >= 2
    ensures var t, ops := map[p := f], [Operation.Delete(p, None), Operation.Delete(p, None)];
            && Accepted(ops, limits) && CanCheckpoint(t, room) && !WithinDefaults(t)
            && Outcomes(t, ops, 2, limits, _ => Uninterrupted) == Stopped(1, map[])
  {
    OneFileBytes(p, f);
    var t, ops := map[p := f], [Operation.Delete(p, None), Operation.Delete(p, None)];
    assert Outcomes(t, ops, 0, limits, _ => Uninterrupted) == Finished(t);
    assert Put(t, p, None) == map[];
    assert Outcomes(t, ops, 1, limits, _ => Uninterrupted) == Finished(map[]);
    assert ops[..1][..0] == [] && Payload(ops[..1]) == 0;
  }

  // ---- what the outcome means, file by file ----

  /** The operations that name `p`, in order, on that one file. */
  function OwnOutcome(current: Option<File>, ops: seq<Operation>, n: nat, limits: Limits, p: Path): Option<Option<File>>
    requires n <= |ops|
  {
    if n == 0 then Some(current) else
      var soFar := OwnOutcome(current, ops, n - 1, limits, p);
      if soFar.None? || ops[n - 1].path != p then soFar else After(soFar.value, ops[n - 1], limits)
  }

  lemma {:induction false} FilesFollowTheirOwnOperations(t: Tree, ops: seq<Operation>, n: nat, limits: Limits, p: Path)
    requires n <= |ops| && Outcomes(t, ops, n, limits, _ => Uninterrupted).Finished?
    ensures OwnOutcome(Lookup(t, p), ops, n, limits, p) == Some(Lookup(Outcomes(t, ops, n, limits, _ => Uninterrupted).tree, p))
  {
    if n > 0 {
      FilesFollowTheirOwnOperations(t, ops, n - 1, limits, p);
      var u := Outcomes(t, ops, n - 1, limits, _ => Uninterrupted).tree;
      PutThenLookup(u, ops[n - 1].path, After(Lookup(u, ops[n - 1].path), ops[n - 1], limits).value);
    }
  }

  lemma {:induction false} RefusalIsLasting(current: Option<File>, ops: seq<Operation>, n: nat, m: nat, limits: Limits, p: Path)
    requires n <= m <= |ops| && OwnOutcome(current, ops, n, limits, p).None?
    ensures OwnOutcome(current, ops, m, limits, p).None?
  {
    if n < m {
      RefusalIsLasting(current, ops, n, m - 1, limits, p);
    }
  }

  /** An uninterrupted patch goes through exactly when every file accepts its own operations in order. */
  lemma {:induction false} PatchLandsIffEveryFileAccepts(t: Tree, ops: seq<Operation>, n: nat, limits: Limits)
    requires n <= |ops|
    ensures Outcomes(t, ops, n, limits, _ => Uninterrupted).Finished? <==>
              forall p :: OwnOutcome(Lookup(t, p), ops, n, limits, p).Some?
  {
    if n > 0 {
      PatchLandsIffEveryFileAccepts(t, ops, n - 1, limits);
      var q := ops[n - 1].path;
      if Outcomes(t, ops, n - 1, limits, _ => Uninterrupted).Finished? {
        FilesFollowTheirOwnOperations(t, ops, n - 1, limits, q);
      } else {
        var p :| OwnOutcome(Lookup(t, p), ops, n - 1, limits, p).None?;
        RefusalIsLasting(Lookup(t, p), ops, n - 1, n, limits, p);
      }
      assert forall p :: p != q ==>
        OwnOutcome(Lookup(t, p), ops, n, limits, p) == OwnOutcome(Lookup(t, p), ops, n - 1, limits, p);
    }
  }
}
