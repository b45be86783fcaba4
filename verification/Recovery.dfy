/** What a crash, a lost receipt, or an awkward moment leaves behind. */
module Recovery {
  import opened Common
  import opened Paths
  import opened Staging
  import opened Drift
  import opened DriftTheorems
  import opened Seeding
  import opened Publication
  import opened Broker
  import opened Protocol

  // ---- a lost receipt ----

  /** A batch built on the baseline has reached the host, and staging has not moved since. */
  ghost predicate ReachedHost(base: Snapshot, host: Host, staged: Tree, m: Manifest) {
    forall i :: 0 <= i < |m.operations| ==>
      var op := m.operations[i];
      && BuiltOn(op, base.files)
      && Landed(HostTree(host), op)
      && StillStaged(Visible(staged), PublishedOperation(op.path, op.operation, op.stagedDigest, op.stagedMode))
  }

  /** At a published path the next rebase records what the receipt would have recorded if and only if the host file
      does not carry the size and time recorded before the publication. Otherwise the rebase takes it for the old file
      and records nothing. */
  lemma RebaseActsAsReceiptIff(f: Situation, next: Baseline, files: Tree, report: Report, nextId: Id, m: Manifest, i: nat)
    requires f == Facing(f.baseline, f.host, f.staged, {}, {}, f.faults)
    requires f.Rebased(next, files, report, nextId)
    requires ReachedHost(f.baseline.snapshot, f.host, f.staged, m) && i < |m.operations|
    ensures var p := m.operations[i].path;
            && Lookup(files, p) == Lookup(f.staged, p)
            && (p !in Missed(f.baseline.snapshot, f.host) <==> Lookup(next.snapshot.files, p) == Lookup(Visible(f.staged), p))
            && (p !in Missed(f.baseline.snapshot, f.host) ==> p !in next.conflicts && f.Decide(p).kind == Absorbed)
            && (p in Missed(f.baseline.snapshot, f.host) ==> Lookup(next.snapshot.files, p) == Lookup(f.baseline.snapshot.files, p))
  {
    var op := m.operations[i];
    var p := op.path;
    assert BuiltOn(op, f.baseline.snapshot.files);
    LandedIsTarget(HostTree(f.host), op);
    StagedIsTarget(Visible(f.staged), op);
    assert f.S(p) == VersionIn(Visible(f.staged), p);
    assert RowOf(next.snapshot, next.conflicts, files, p) == f.After(p);
    if p in Missed(f.baseline.snapshot, f.host) {
      MissedIsMistaken(f, p);
    } else {
      SeenIsTrue(f, p);
      assert f.Decide(p) == Decision(Absorbed, true, false, false);
      SameVersionSameEntry(f.host, f.staged, f.baseline.snapshot, p);
      assert p !in next.conflicts by { assert Lookup(next.conflicts, p) == None; }
    }
  }

  /** A missed file that staging holds as the host does is taken for the baseline's, or for a conflict if its mode
      changed as well. */
  lemma MissedIsMistaken(f: Situation, p: Path)
    requires f == Facing(f.baseline, f.host, f.staged, {}, {}, f.faults)
    requires p in Missed(f.baseline.snapshot, f.host) && f.S(p) == VersionOf(HostTree(f.host), p)
    ensures !f.Decide(p).adopt && !f.Decide(p).install
    ensures Lookup(f.baseline.snapshot.files, p) != Lookup(Visible(f.staged), p)
  {
    assert Stale(f.baseline.snapshot, f.host, p);
    assert f.seen[p] == Observe(f.baseline.snapshot, p, f.host[p]);
    assert f.H(p).value.digest == f.baseline.snapshot.files[p].digest != Sha256(f.host[p].file.content) == f.S(p).value.digest;
  }

  lemma SameVersionSameEntry(host: Host, staged: Tree, previous: Snapshot, p: Path)
    requires VersionOf(HostTree(host), p) == VersionOf(staged, p)
    requires p !in Missed(previous, host)
    ensures EntrySeen(Lookup(Sightings(previous, host), p)) == Lookup(Visible(staged), p)
  {
    if p in host {
      assert !Stale(previous, host, p);
    }
  }

  /** Staging holds something other than the host, and either changed it itself or cannot take the host's file. */
  predicate CannotFollow(f: Situation, p: Path) {
    f.S(p) != f.H(p) && (f.S(p) != f.B(p) || !f.Installable(p))
  }

  /** Lost-receipt recovery commutes. After a batch reached the host without its receipt, the next rebase
      gives the baseline the receipt would have given (digests, sizes and modes of every file) exactly
      when it sees every published file and moves nothing else: no published file carries the size and time recorded
      before, and every other path is unchanged on the host, or staging cannot follow it there. */
  lemma LostReceiptIsRecovered(
    f: Situation, next: Baseline, files: Tree, report: Report, nextId: Id, m: Manifest, receipted: Snapshot, receiptId: Id)
    requires f == Facing(f.baseline, f.host, f.staged, {}, {}, f.faults)
    requires f.Rebased(next, files, report, nextId)
    requires ReachedHost(f.baseline.snapshot, f.host, f.staged, m)
    requires Advanced(f.baseline.snapshot, Visible(f.staged), OperationPaths(m.operations), receipted, receiptId)
    ensures next.snapshot.files == receipted.files <==>
              && OperationPaths(m.operations) !! Missed(f.baseline.snapshot, f.host)
              && forall p :: p !in OperationPaths(m.operations) ==> f.H(p) == f.B(p) || CannotFollow(f, p)
  {
    var paths := OperationPaths(m.operations);
    forall p ensures Lookup(next.snapshot.files, p) == Lookup(receipted.files, p) <==> RecoveredAt(f, paths, p) {
      assert Lookup(receipted.files, p) == if p in paths then Lookup(Visible(f.staged), p) else Lookup(f.baseline.snapshot.files, p);
      if p in paths {
        var i :| 0 <= i < |m.operations| && m.operations[i].path == p;
        RebaseActsAsReceiptIff(f, next, files, report, nextId, m, i);
      } else {
        RebaseMovesOnlyWhatItAdopts(f, next, files, report, nextId, p);
      }
    }
    assert (forall p :: RecoveredAt(f, paths, p)) <==>
           (paths !! Missed(f.baseline.snapshot, f.host) && forall p :: p !in paths ==> f.H(p) == f.B(p) || CannotFollow(f, p)) by {
      RecoveredEverywhere(f, paths);
    }
    if forall p :: RecoveredAt(f, paths, p) {
      SameLookupsSameMap(next.snapshot.files, receipted.files);
    }
    if next.snapshot.files == receipted.files {
      forall p ensures RecoveredAt(f, paths, p) {
        assert Lookup(next.snapshot.files, p) == Lookup(receipted.files, p);
      }
    }
  }

  ghost predicate RecoveredAt(f: Situation, paths: set<Path>, p: Path) {
    if p in paths then p !in Missed(f.baseline.snapshot, f.host) else f.H(p) == f.B(p) || CannotFollow(f, p)
  }

  lemma RecoveredEverywhere(f: Situation, paths: set<Path>)
    ensures (forall p :: RecoveredAt(f, paths, p)) <==>
            (paths !! Missed(f.baseline.snapshot, f.host) && forall p :: p !in paths ==> f.H(p) == f.B(p) || CannotFollow(f, p))
  {
    if forall p :: RecoveredAt(f, paths, p) {
      forall p ensures p in paths ==> p !in Missed(f.baseline.snapshot, f.host)
        ensures p !in paths ==> f.H(p) == f.B(p) || CannotFollow(f, p)
      {
        assert RecoveredAt(f, paths, p);
      }
    }
  }

  /** Concretely: v1 is published over v0 with the same length, and the file keeps (or is given back) v0's time before
      the receipt could be sent. The next rebase takes it for v0: the publication stays pending although the host
      holds it, and publishing it again would be refused. */
  lemma PublicationIsOverlooked(p: Path, v0: File, v1: File, time: int, id: Id, nextId: Id)
    returns (f: Situation, op: PublishOperation)
    requires v0.content != v1.content && |v0.content| == |v1.content| && v0.mode == v1.mode
    ensures f == Facing(Baseline(SeedSnapshot(map[p := HostFile(v0, time)], id), map[]), map[p := HostFile(v1, time)], map[p := v1], {}, {}, {})
    ensures op == PublishOperation(p, Update, Some(VersionOfEntry(EntryOf(v0))), Some(Sha256(v1.content)), Some(v1.mode), Some(v1.content))
    ensures ReachedHost(f.baseline.snapshot, f.host, f.staged, Manifest("", id, [op], 1, 1))
    ensures p in Missed(f.baseline.snapshot, f.host)
    ensures f.Decide(p).kind == Same && f.After(p).entry == Some(EntryOf(v0))
    ensures !Ready(HostTree(f.host), op)
  {
    f := Facing(Baseline(SeedSnapshot(map[p := HostFile(v0, time)], id), map[]), map[p := HostFile(v1, time)], map[p := v1], {}, {}, {});
    op := PublishOperation(p, Update, Some(VersionOfEntry(EntryOf(v0))), Some(Sha256(v1.content)), Some(v1.mode), Some(v1.content));
    assert EntryOf(v0).digest != EntryOf(v1).digest;
    assert f.baseline.snapshot.signatures[p] == SignatureOf(HostFile(v0, time)) == SignatureOf(f.host[p]);
    assert f.seen[p] == Observe(f.baseline.snapshot, p, f.host[p]);
  }

  /** Without choices, a rebase leaves a recorded entry alone exactly when the host did not change the path
      or the path stays in conflict. */
  lemma RebaseMovesOnlyWhatItAdopts(f: Situation, next: Baseline, files: Tree, report: Report, nextId: Id, p: Path)
    requires f.keep == {} && f.take == {}
    requires f.Rebased(next, files, report, nextId)
    ensures Lookup(next.snapshot.files, p) == Lookup(f.baseline.snapshot.files, p) <==> f.H(p) == f.B(p) || CannotFollow(f, p)
  {
    assert RowOf(next.snapshot, next.conflicts, files, p) == f.After(p);
    RebaseSettlesEveryPath(f, next, files, report, nextId, p);
  }

  // ---- the signature a receipt leaves behind ----

  /** A receipt moves the recorded digests but keeps the signatures of the files as they were before the
      publication. A published file is invisible to the next rebase exactly when the host file carries
      that old signature with content other than what was published, as after restoring the old file
      with its timestamp. */
  lemma PublishedPathIsMissedIff(s: Snapshot, l: Listing, paths: set<Path>, next: Snapshot, nextId: Id, host: Host, p: Path)
    requires Advanced(s, l, paths, next, nextId) && p in paths
    ensures p in Missed(next, host) <==>
              && p in host && p in l
              && Lookup(s.signatures, p) == Some(SignatureOf(host[p]))
              && l[p].digest != Sha256(host[p].file.content)
  {
    assert Lookup(next.files, p) == Lookup(l, p);
    assert p in next.files <==> p in l;
  }

  /** Concretely: v0 is published over by v1, then the user puts the old file back with its timestamp. The
      rebase sees nothing: it keeps v1 as the baseline although the host holds v0. */
  lemma RestoredFileIsOverlooked(p: Path, v0: File, v1: File, time: int, id: Id, nextId: Id, rebaseId: Id)
    returns (s: Snapshot, next: Snapshot, host: Host, f: Situation)
    requires v0.content != v1.content && v0.mode == v1.mode
    ensures s == SeedSnapshot(map[p := HostFile(v0, time)], id)
    ensures Advanced(s, Visible(map[p := v1]), {p}, next, nextId)
    ensures host == map[p := HostFile(v0, time)]
    ensures f == Facing(Baseline(next, map[]), host, map[p := v1], {}, {}, {})
    ensures f.Decide(p).kind == Same && f.After(p).entry == Some(EntryOf(v1))
    ensures VersionOf(HostTree(host), p) != Some(VersionOfEntry(EntryOf(v1)))
  {
    host := map[p := HostFile(v0, time)];
    s := SeedSnapshot(host, id);
    next := Snapshot(nextId, Visible(map[p := v1]), s.signatures);
    f := Facing(Baseline(next, map[]), host, map[p := v1], {}, {}, {});
    assert Trusted(next, p, host[p]) by { assert s.signatures[p] == SignatureOf(host[p]); }
    assert f.seen[p] == Observe(next, p, host[p]);
    assert EntryOf(v0).digest != EntryOf(v1).digest;
  }

  // ---- a discard that was interrupted ----

  /** `discard` empties staging before it forgets the baseline. If the process stops in between, the
      restart resumes from the old baseline over an empty volume, and a path is then pending, as a delete,
      exactly when the baseline recorded it and the host still has it. */
  lemma InterruptedDiscardShowsDeletes(saved: Baseline, host: Host, faults: set<Path>, next: Baseline, files: Tree, report: Report, nextId: Id, p: Path)
    requires Facing(saved, host, map[], {}, {}, faults).Rebased(next, files, report, nextId)
    ensures Differs(next.snapshot, Visible(files), p) <==> p in saved.snapshot.files && p in host
    ensures Differs(next.snapshot, Visible(files), p) ==> ChangeAt(next.snapshot, Visible(files), p).operation == Delete
  {
    var f := Facing(saved, host, map[], {}, {}, faults);
    assert RowOf(next.snapshot, next.conflicts, files, p) == f.After(p);
    assert p in host ==> f.seen[p] == Observe(saved.snapshot, p, host[p]);
    assert Lookup(next.snapshot.files, p) == f.After(p).entry && Lookup(files, p) == f.After(p).file;
  }

  /** So a restart after a crash in `discard` shows nothing pending if and only if the baseline had already
      been forgotten, or no baseline file is on the host any more. */
  lemma InterruptedDiscardIsCleanIff(
    forgotten: bool, saved: Baseline, host: Host, faults: set<Path>, next: Baseline, files: Tree, report: Report, nextId: Id)
    requires forgotten ==> next == Baseline(SeedSnapshot(host, nextId), map[]) && files == HostTree(host)
    requires !forgotten ==> Facing(saved, host, map[], {}, {}, faults).Rebased(next, files, report, nextId)
    ensures Changes(next.snapshot, Visible(files)) == [] <==> forgotten || saved.snapshot.files.Keys !! host.Keys
  {
    var cs := Changes(next.snapshot, Visible(files));
    PendingIsExact(next.snapshot, Visible(files));
    if forgotten {
      SeedHasNoChanges(host, nextId);
    } else {
      if p :| p in saved.snapshot.files && p in host {
        InterruptedDiscardShowsDeletes(saved, host, faults, next, files, report, nextId, p);
        assert ChangeAt(next.snapshot, Visible(files), p) in cs;
      } else if cs != [] {
        var c := cs[0];
        InterruptedDiscardShowsDeletes(saved, host, faults, next, files, report, nextId, c.path);
      }
    }
  }
}
