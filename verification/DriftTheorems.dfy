/** What the three-way rebase guarantees, stated without its case analysis. */
module DriftTheorems {
  import opened Common
  import opened Paths
  import opened Staging
  import opened Drift

  /** An install failure: only the host changed the path, yet staging could not follow. */
  ghost predicate CouldNotFollow(f: Situation, p: Path) {
    p !in f.keep + f.take && f.H(p) != f.B(p) && f.S(p) != f.H(p) && f.S(p) == f.B(p) && !f.Installable(p)
  }

  /** Afterwards every path is either settled (the baseline is the host's version) or an open conflict
      in which neither the baseline nor staging moved. It is a conflict exactly when both sides changed
      it differently and the user made no choice, or when staging could not follow the host. */
  lemma RebaseSettlesEveryPath(f: Situation, next: Baseline, files: Tree, report: Report, nextId: Id, p: Path)
    requires f.Rebased(next, files, report, nextId)
    ensures p !in next.conflicts ==> VersionIn(next.snapshot.files, p) == f.H(p)
    ensures p in next.conflicts ==>
              && Lookup(next.snapshot.files, p) == Lookup(f.baseline.snapshot.files, p)
              && Lookup(files, p) == Lookup(f.staged, p)
              && next.conflicts[p] == ConflictOf(p, f.B(p), f.H(p), f.S(p))
    ensures p in next.conflicts <==>
              || CouldNotFollow(f, p)
              || (p !in f.keep + f.take && f.H(p) != f.B(p) && f.S(p) != f.H(p) && f.S(p) != f.B(p))
  {
    assert RowOf(next.snapshot, next.conflicts, files, p) == f.After(p);
    assert p in next.conflicts <==> Lookup(next.conflicts, p).Some?;
    assert VersionIn(next.snapshot.files, p)
        == match Lookup(next.snapshot.files, p) case Some(e) => Some(VersionOfEntry(e)) case None => None;
  }

  /** What is recorded of a path, field by field. A conflict names the path and the three digests, each absent where the
      path is. A path without conflict has the digest and mode seen on the host and, if it is there, its size and time. */
  lemma RebaseRecords(f: Situation, next: Baseline, files: Tree, report: Report, nextId: Id, p: Path)
    requires f == Facing(f.baseline, f.host, f.staged, f.keep, f.take, f.faults)
    requires f.Rebased(next, files, report, nextId)
    ensures p in next.conflicts ==>
              && next.conflicts[p].path == p
              && next.conflicts[p].baseDigest
                 == (if p in f.baseline.snapshot.files then Some(f.baseline.snapshot.files[p].digest) else None)
              && next.conflicts[p].hostDigest == (if p in f.host then Some(f.seen[p].entry.digest) else None)
              && next.conflicts[p].stagedDigest == (if p in f.staged then Some(Sha256(f.staged[p].content)) else None)
    ensures p !in next.conflicts ==> (p in next.snapshot.files <==> p in f.host)
    ensures p !in next.conflicts && p in f.host ==>
              && next.snapshot.files[p].digest == f.seen[p].entry.digest && next.snapshot.files[p].mode == f.host[p].file.mode
              && p in next.snapshot.signatures
              && next.snapshot.signatures[p].size == |f.host[p].file.content|
              && next.snapshot.signatures[p].mtime == f.host[p].mtime
  {
    RebaseSettlesEveryPath(f, next, files, report, nextId, p);
    assert RowOf(next.snapshot, next.conflicts, files, p) == f.After(p);
    assert Lookup(next.snapshot.files, p) == f.After(p).entry && Lookup(next.snapshot.signatures, p) == f.After(p).signature;
    if p in f.host {
      SeenAt(f.baseline.snapshot, f.host, p);
    }
  }

  /** Staged work is replaced only where there was none (staging held the baseline's version) or where
      the user chose the host's version, and then by exactly the host's file. `keep_staged` leaves the
      staged file alone and accepts the host's version as the new baseline. */
  lemma RebaseKeepsStagedWork(f: Situation, next: Baseline, files: Tree, report: Report, nextId: Id, p: Path)
    requires f.Rebased(next, files, report, nextId) && f.keep !! f.take
    ensures Lookup(files, p) != Lookup(f.staged, p) ==>
              (f.S(p) == f.B(p) || p in f.take) && Lookup(files, p) == Lookup(HostTree(f.host), p)
    ensures p in f.take ==> Lookup(files, p) == Lookup(HostTree(f.host), p)
    ensures p in f.keep ==> Lookup(files, p) == Lookup(f.staged, p)
    ensures p in f.keep + f.take ==> p !in next.conflicts && VersionIn(next.snapshot.files, p) == f.H(p)
  {
    RebaseSettlesEveryPath(f, next, files, report, nextId, p);
    assert RowOf(next.snapshot, next.conflicts, files, p) == f.After(p);
  }

  /** The snapshot id moves exactly when some recorded version moved or a conflict was settled: a
      rebase that keeps the id keeps every recorded version. */
  lemma SameIdSameFiles(f: Situation, next: Baseline, files: Tree, report: Report, nextId: Id)
    requires f.Rebased(next, files, report, nextId)
    requires nextId != f.baseline.snapshot.id
    ensures next.snapshot.id == f.baseline.snapshot.id ==>
              && next.snapshot.files == f.baseline.snapshot.files
              && next.conflicts.Keys >= f.baseline.conflicts.Keys
              && files == f.staged
  {
    if next.snapshot.id == f.baseline.snapshot.id {
      forall p
        ensures Lookup(next.snapshot.files, p) == Lookup(f.baseline.snapshot.files, p)
        ensures p in f.baseline.conflicts ==> p in next.conflicts
        ensures Lookup(files, p) == Lookup(f.staged, p)
      {
        assert RowOf(next.snapshot, next.conflicts, files, p) == f.After(p);
        assert report.Lists(p, f.Decide(p).kind);
      }
      SameLookupsSameMap(next.snapshot.files, f.baseline.snapshot.files);
      SameLookupsSameMap(files, f.staged);
    }
  }

  /** A path that a rebase without choices neither absorbs nor resolves: the host holds the baseline's version and
      no conflict is open there, or the host changed it and staging neither followed nor can. */
  predicate Undisturbed(f: Situation, p: Path) {
    if f.H(p) == f.B(p) then p !in f.baseline.conflicts
    else f.S(p) != f.H(p) && (f.S(p) != f.B(p) || !f.Installable(p))
  }

  /** A rebase without choices keeps the snapshot id exactly when it finds every path undisturbed. */
  lemma KeepsIdIffUndisturbed(f: Situation, next: Baseline, files: Tree, report: Report, nextId: Id)
    requires f.keep == {} && f.take == {}
    requires f.Rebased(next, files, report, nextId) && nextId != f.baseline.snapshot.id
    ensures next.snapshot.id == f.baseline.snapshot.id <==> forall p :: Undisturbed(f, p)
  {
    forall p ensures Undisturbed(f, p) <==> p !in report.absorbed && p !in report.resolved {
      assert report.Lists(p, f.Decide(p).kind);
    }
    FirstIsMember(report.absorbed);
    FirstIsMember(report.resolved);
  }

  // ---- a second rebase over the same host ----

  /** Listing the host again through the updated signatures shows the same digests, even where an
      unchanged signature hid a change. */
  lemma SecondListingIsTheSame(f: Situation, next: Baseline, files: Tree, report: Report, nextId: Id, p: Path)
    requires f == Facing(f.baseline, f.host, f.staged, f.keep, f.take, f.faults)
    requires f.Rebased(next, files, report, nextId) && p in f.host
    ensures Observe(next.snapshot, p, f.host[p]) == f.seen[p]
  {
    assert RowOf(next.snapshot, next.conflicts, files, p) == f.After(p);
    assert f.seen[p] == Observe(f.baseline.snapshot, p, f.host[p]);
    assert Lookup(next.snapshot.files, p) == f.After(p).entry && Lookup(next.snapshot.signatures, p) == f.After(p).signature;
  }

  /** With no install failure a second rebase of an unchanged host does nothing at all: it absorbs and
      resolves no path, and baseline, snapshot id, signatures, conflicts and staging stay as they are. */
  lemma SecondRebaseIsQuiet(
    f: Situation, next: Baseline, files: Tree, report: Report, nextId: Id,
    faults: set<Path>, next2: Baseline, files2: Tree, report2: Report, nextId2: Id)
    requires f == Facing(f.baseline, f.host, f.staged, f.keep, f.take, f.faults)
    requires f.Rebased(next, files, report, nextId) && f.keep !! f.take
    requires forall p :: p in f.take ==> f.Installable(p)
    requires forall p :: !CouldNotFollow(f, p)
    requires Facing(next, f.host, files, {}, {}, faults).Rebased(next2, files2, report2, nextId2)
    ensures next2 == next && files2 == files
    ensures report2.absorbed == [] && report2.resolved == []
  {
    var g := Facing(next, f.host, files, {}, {}, faults);
    assert g.seen == f.seen by {
      forall p | p in f.host ensures g.seen[p] == f.seen[p] {
        SecondListingIsTheSame(f, next, files, report, nextId, p);
      }
    }
    forall p
      ensures g.After(p) == g.Before(p)
      ensures g.Decide(p).kind == Same || g.Decide(p).kind == Conflicting
    {
      QuietPath(f, next, files, report, nextId, g, p);
    }
    forall p
      ensures Lookup(next2.snapshot.files, p) == Lookup(next.snapshot.files, p)
      ensures Lookup(next2.snapshot.signatures, p) == Lookup(next.snapshot.signatures, p)
      ensures Lookup(next2.conflicts, p) == Lookup(next.conflicts, p)
      ensures Lookup(files2, p) == Lookup(files, p)
      ensures p !in report2.absorbed && p !in report2.resolved
    {
      assert RowOf(next2.snapshot, next2.conflicts, files2, p) == g.After(p) == g.Before(p);
      assert report2.Lists(p, g.Decide(p).kind);
    }
    SameLookupsSameMap(next2.snapshot.files, next.snapshot.files);
    SameLookupsSameMap(next2.snapshot.signatures, next.snapshot.signatures);
    SameLookupsSameMap(next2.conflicts, next.conflicts);
    SameLookupsSameMap(files2, files);
    FirstIsMember(report2.absorbed);
    FirstIsMember(report2.resolved);
  }

  lemma QuietPath(f: Situation, next: Baseline, files: Tree, report: Report, nextId: Id, g: Situation, p: Path)
    requires f == Facing(f.baseline, f.host, f.staged, f.keep, f.take, f.faults)
    requires f.Rebased(next, files, report, nextId)
    requires !CouldNotFollow(f, p)
    requires g == Situation(next, f.seen, f.host, files, {}, {}, g.faults)
    ensures g.After(p) == g.Before(p)
    ensures g.Decide(p).kind == Same || g.Decide(p).kind == Conflicting
  {
    assert RowOf(next.snapshot, next.conflicts, files, p) == f.After(p);
    RebaseSettlesEveryPath(f, next, files, report, nextId, p);
    if p in next.conflicts {
      assert g.B(p) == f.B(p) && g.H(p) == f.H(p) && g.S(p) == f.S(p);
      assert g.Decide(p) == Decision(Conflicting, false, false, true);
    } else {
      assert g.B(p) == g.H(p);
    }
  }

  // ---- a rebase that was interrupted ----

  /** A crash part way through a rebase leaves some files installed and the saved baseline unmoved.
      The rebase of the restart then gives every path the user made no choice for exactly the row
      (baseline, signature, conflict and staged file) that the uninterrupted rebase would have given. */
  lemma InterruptedRebaseIsCompleted(f: Situation, partial: Tree, p: Path)
    requires f.WellFormed() && f.PartlyInstalled(partial)
    requires p !in f.keep + f.take
    ensures Situation(f.baseline, f.seen, f.host, partial, {}, {}, f.faults).After(p) == f.After(p)
  {
    var g := Situation(f.baseline, f.seen, f.host, partial, {}, {}, f.faults);
    assert Lookup(partial, p) == Lookup(f.staged, p) || (f.Decide(p).install && Lookup(partial, p) == f.After(p).file);
    if Lookup(partial, p) == Lookup(f.staged, p) {
      assert g.S(p) == f.S(p);
      assert g.Decide(p) == f.Decide(p);
    } else {
      assert f.Decide(p) == Decision(Absorbed, true, true, false);
      assert g.S(p) == f.H(p);
      assert g.Decide(p) == Decision(Absorbed, true, false, false);
    }
  }

  /** What becomes of a `take_host` choice that a crash interrupted. */
  predicate ChoiceDone(g: Situation, p: Path) {
    g.After(p).conflict.None? && VersionAfter(g, p) == g.H(p) && g.After(p).file == Lookup(HostTree(g.host), p)
  }

  predicate ChoiceStillOpen(g: Situation, p: Path) {
    g.After(p).conflict.Some? && g.After(p).entry == g.Before(p).entry && g.After(p).file == g.Before(p).file
  }

  /** The conflict is closed although staging still differs from the host: the file has become publishable. */
  predicate ChoiceLost(g: Situation, p: Path) {
    g.After(p).conflict.None? && VersionAfter(g, p) == g.H(p) && g.After(p).file == g.Before(p).file && g.S(p) != g.H(p)
  }

  function VersionAfter(g: Situation, p: Path): Option<Version> {
    match g.After(p).entry case Some(e) => Some(VersionOfEntry(e)) case None => None
  }

  predicate Installed(f: Situation, partial: Tree, p: Path) {
    Lookup(partial, p) == Lookup(HostTree(f.host), p)
  }

  /** A crash may leave an interrupted `take_host` choice in one of three ways, decided by what host, baseline and
      staging held and whether the file was already installed. The choice is lost exactly when the host is back at
      the baseline's version, staging differs from it, and the install had not happened: the restart then takes the
      conflict for settled and keeps the staged file. Otherwise it is still open exactly when both sides had changed
      the path and the install had not happened, and done in every other case. */
  lemma InterruptedChoiceIff(f: Situation, partial: Tree, p: Path)
    requires f.WellFormed() && f.PartlyInstalled(partial)
    requires p in f.take && f.Installable(p)
    ensures var g := Situation(f.baseline, f.seen, f.host, partial, {}, {}, f.faults);
            var undone := !Installed(f, partial, p) && f.S(p) != f.H(p);
            && (ChoiceLost(g, p) <==> undone && f.H(p) == f.B(p))
            && (ChoiceStillOpen(g, p) <==> undone && f.H(p) != f.B(p) && f.S(p) != f.B(p))
            && (ChoiceDone(g, p) <==> !undone || (f.H(p) != f.B(p) && f.S(p) == f.B(p)))
  {
    var g := Situation(f.baseline, f.seen, f.host, partial, {}, {}, f.faults);
    assert f.After(p).file == Lookup(HostTree(f.host), p);
    HostVersionSeen(f, p);
    if Installed(f, partial, p) {
      assert g.S(p) == f.H(p);
    } else {
      assert Lookup(partial, p) == Lookup(f.staged, p);
      assert g.S(p) == f.S(p);
    }
  }

  /** An interrupted `keep_staged` choice is likewise done, still open, or overridden: the restart installs the host
      file over the kept one exactly when staging held the baseline's version and the host had moved. */
  lemma InterruptedKeepIff(f: Situation, partial: Tree, p: Path)
    requires f.WellFormed() && f.PartlyInstalled(partial)
    requires p in f.keep && p in f.baseline.conflicts
    ensures var g := Situation(f.baseline, f.seen, f.host, partial, {}, {}, f.faults);
            var same := f.H(p) == f.B(p) || f.S(p) == f.H(p);
            && (g.After(p).conflict.None? && g.After(p).file == f.After(p).file && VersionAfter(g, p) == VersionAfter(f, p) <==> same)
            && (ChoiceStillOpen(g, p) <==> !same && (f.S(p) != f.B(p) || !f.Installable(p)))
            && (g.Decide(p).install <==> !same && f.S(p) == f.B(p) && f.Installable(p))
  {
    var g := Situation(f.baseline, f.seen, f.host, partial, {}, {}, f.faults);
    assert p !in f.take;
    assert Lookup(partial, p) == Lookup(f.staged, p);
    assert g.S(p) == f.S(p);
    if g.Decide(p).install {
      HostVersionSeen(f, p);
      assert g.After(p).file != g.Before(p).file by { assert VersionOf(HostTree(f.host), p) != f.S(p); }
    }
  }

  /** A host file that can be installed is the one the comparison saw. */
  lemma HostVersionSeen(f: Situation, p: Path)
    requires f.WellFormed() && f.Installable(p)
    ensures VersionOf(HostTree(f.host), p) == f.H(p)
  {
  }
}
