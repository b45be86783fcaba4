/** The whole protocol as a state machine, and what every run of it keeps.

    The host is edited freely, the agent mutates staging freely, manifests are approved at any time, receipts are
    delayed, lost or repeated, installs, restores and saves fail, and the executor stops at any point and restarts. */
module Protocol {
  import opened Common
  import opened Paths
  import opened Staging
  import opened Drift
  import opened DriftTheorems
  import opened Seeding
  import opened Publication
  import opened Broker
  import opened Service
  import opened Worker

  /** The first five fields are the system's: the host, the staging volume, the baseline in memory, the baseline on
      the state volume, and whether the executor runs. The rest is bookkeeping about the run so far. */
  datatype System = System(
    host: Host,
    work: Tree,
    base: Baseline,
    saved: Option<Baseline>,
    up: bool,
    offered: set<Manifest>,
    history: map<Id, Listing>,       // every baseline there has been, by snapshot id
    sent: map<Manifest, set<Path>>,  // batches that reached the host, and the paths anyone else wrote since
    edited: set<Path>,               // host paths changed by anyone else since the last sync
    hidden: set<Path>,               // host files whose change the last sync could not see
    overtaken: set<Path>,            // paths acknowledged after anyone else had changed the published file
    awaiting: set<Path>)             // paths published since the last sync and not acknowledged

  /** `kept`: the new baseline was saved. `alive`: the executor survived. */
  datatype Event =
    | HostEdit(p: Path)
    | StageEdit
    | Crash
    | Offer(m: Manifest, selection: Option<set<Path>>, never: set<Path>)
    | Publish(m: Manifest)
    | PublishFailed(m: Manifest, unrestored: set<Path>)
    | ReceiptAccepted(m: Manifest, nextId: Id, kept: bool)
    | ReceiptRefused(m: Manifest)
    | RebaseDone(keep: set<Path>, take: set<Path>, faults: set<Path>, report: Report, nextId: Id, kept: bool)
    | RebaseStopped(keep: set<Path>, take: set<Path>, faults: set<Path>, alive: bool)
    | DiscardDone(nextId: Id, kept: bool)
    | DiscardStopped(forgotten: bool, alive: bool)
    | Restart(faults: set<Path>, report: Report, nextId: Id)
    | RestartStopped(faults: set<Path>)
    | Reseed(nextId: Id)
    | ReseedStopped

  function HostVersion(s: System, p: Path): Option<Version> {
    VersionOf(HostTree(s.host), p)
  }

  function BaseOfSystem(s: System, p: Path): Option<Version> {
    VersionIn(s.base.snapshot.files, p)
  }

  /** The version an operation leaves on the host. */
  function Target(op: PublishOperation): Option<Version> {
    if op.operation == Delete || op.stagedDigest == None || op.stagedMode == None then None
    else Some(Version(op.stagedDigest.value, op.stagedMode.value))
  }

  /** Host files that changed under an unchanged (size, mtime) signature: a rebase cannot see them. */
  ghost function Missed(previous: Snapshot, host: Host): set<Path> {
    set p | p in host && Stale(previous, host, p)
  }

  /** Other writes to the host, noted against every batch that reached it. */
  function Noted(sent: map<Manifest, set<Path>>, ps: set<Path>): map<Manifest, set<Path>> {
    map m | m in sent :: sent[m] + ps
  }

  /** A rebase that started from `from` and went through; a baseline that did not move is not saved. */
  ghost predicate Rebases(
    s: System, from: Baseline, keep: set<Path>, take: set<Path>, faults: set<Path>, report: Report, nextId: Id, kept: bool, t: System)
  {
    var f := Facing(from, s.host, s.work, keep, take, faults);
    && nextId !in s.history && f.WellFormed()
    && f.Rebased(t.base, t.work, report, nextId)
    && t == AfterRebase(s, from, t.work, t.base, kept)
  }

  ghost function AfterRebase(s: System, from: Baseline, work: Tree, base: Baseline, kept: bool): System {
    s.(work := work, base := base, saved := if SameBaseline(from, base) || !kept then s.saved else Some(base), up := true,
       history := s.history[base.snapshot.id := base.snapshot.files],
       edited := {}, hidden := Missed(from.snapshot, s.host), overtaken := {}, awaiting := {})
  }

  /** A rebase that started from `from` and stopped part way. */
  ghost predicate StopsRebasing(s: System, from: Baseline, keep: set<Path>, take: set<Path>, faults: set<Path>, alive: bool, t: System) {
    var f := Facing(from, s.host, s.work, keep, take, faults);
    && f.WellFormed() && f.PartlyInstalled(t.work)
    && t == s.(work := t.work, up := alive)
  }

  /** Everything starts over from the host. */
  ghost predicate Seeds(s: System, nextId: Id, kept: bool, t: System) {
    nextId !in s.history && t == AfterSeed(s, nextId, kept)
  }

  ghost function AfterSeed(s: System, nextId: Id, kept: bool): System {
    var base := Baseline(SeedSnapshot(s.host, nextId), map[]);
    s.(work := HostTree(s.host), base := base, saved := if kept then Some(base) else None, up := true,
       history := s.history[nextId := base.snapshot.files], edited := {}, hidden := {}, overtaken := {}, awaiting := {})
  }

  /** The paths of the batch are synced again, but for those that anyone else wrote since. */
  ghost function AfterReceipt(s: System, m: Manifest, next: Snapshot, kept: bool): System
    requires m in s.sent
  {
    var base := Baseline(next, s.base.conflicts);
    s.(base := base, saved := if kept then Some(base) else s.saved, history := s.history[next.id := next.files],
       overtaken := s.overtaken - OperationPaths(m.operations) + s.sent[m] * OperationPaths(m.operations),
       awaiting := s.awaiting - OperationPaths(m.operations))
  }

  /** A batch reached the host: every other batch notes its paths. */
  ghost function AfterPublish(s: System, m: Manifest, host: Host): System {
    s.(host := host, sent := Noted(s.sent, OperationPaths(m.operations))[m := {}],
       awaiting := s.awaiting + OperationPaths(m.operations))
  }

  /** Anyone else wrote the host at these paths. */
  ghost function AfterOthersWrote(s: System, ps: set<Path>, host: Host): System {
    s.(host := host, edited := s.edited + ps, sent := Noted(s.sent, ps))
  }

  ghost predicate Next(s: System, e: Event, t: System) {
    match e
    case HostEdit(p) =>
      && (forall q :: q != p ==> Lookup(t.host, q) == Lookup(s.host, q))
      && t == AfterOthersWrote(s, {p}, t.host)
    case StageEdit =>
      t == s.(work := t.work)
    case Crash =>
      t == s.(up := false)
    case Offer(m, selection, never) =>
      && s.up && m.batchIndex >= 1
      && m == ManifestOf(m.workspace, s.base.snapshot.id,
                         Pending(s.base.snapshot, Visible(s.work), s.base.conflicts.Keys + never, selection), s.work, m.batchIndex)
      && t == s.(offered := s.offered + {m})
    case Publish(m) =>
      && m in s.offered
      && (forall i :: 0 <= i < |m.operations| ==> Ready(HostTree(s.host), m.operations[i]) && Landed(HostTree(t.host), m.operations[i]))
      && (forall p :: p !in OperationPaths(m.operations) ==> Lookup(t.host, p) == Lookup(s.host, p))
      && t == AfterPublish(s, m, t.host)
    case PublishFailed(m, unrestored) =>
      && m in s.offered
      && Reviewed(m.operations, s.host, t.host)
      && (forall p :: p !in unrestored ==> Lookup(HostTree(t.host), p) == Lookup(HostTree(s.host), p))
      && t == AfterOthersWrote(s, unrestored, t.host)
    case ReceiptAccepted(m, nextId, kept) =>
      && s.up && m in s.sent && m.source == s.base.snapshot.id && nextId !in s.history
      && (forall i :: 0 <= i < |m.operations| ==> StillStaged(Visible(s.work), ReceiptFor(m).operations[i]))
      && Advanced(s.base.snapshot, Visible(s.work), Acknowledged(ReceiptFor(m).operations, |m.operations|), t.base.snapshot, nextId)
      && t == AfterReceipt(s, m, t.base.snapshot, kept)
    case ReceiptRefused(m) =>
      t == s
    case RebaseDone(keep, take, faults, report, nextId, kept) =>
      s.up && Rebases(s, s.base, keep, take, faults, report, nextId, kept, t)
    case RebaseStopped(keep, take, faults, alive) =>
      s.up && StopsRebasing(s, s.base, keep, take, faults, alive, t)
    case DiscardDone(nextId, kept) =>
      s.up && Seeds(s, nextId, kept, t)
    case DiscardStopped(forgotten, alive) =>
      s.up && t == s.(work := t.work, saved := if forgotten then None else s.saved, up := alive)
    case Restart(faults, report, nextId) =>
      s.saved.Some? && Rebases(s, s.saved.value, {}, {}, faults, report, nextId, true, t)
    case RestartStopped(faults) =>
      s.saved.Some? && StopsRebasing(s, s.saved.value, {}, {}, faults, false, t)
    case Reseed(nextId) =>
      (s.saved.None? || s.work == map[]) && Seeds(s, nextId, true, t)
    case ReseedStopped =>
      (s.saved.None? || s.work == map[]) && t == s.(work := t.work, saved := None, up := false)
  }

  ghost predicate Init(s: System) {
    && s.work == HostTree(s.host)
    && s.base == Baseline(SeedSnapshot(s.host, s.base.snapshot.id), map[])
    && s.saved == Some(s.base) && s.up
    && s.offered == {} && s.sent == map[]
    && s.edited == {} && s.hidden == {} && s.overtaken == {} && s.awaiting == {}
    && s.history == map[s.base.snapshot.id := s.base.snapshot.files]
  }

  // ---- the invariant ----

  /** An operation of a manifest built on the baseline `b`: it starts from that baseline and moves. */
  ghost predicate BuiltOn(op: PublishOperation, b: Listing) {
    && op.base == VersionIn(b, op.path)
    && (op.operation == Delete || op.stagedMode.Some?)
    && op.Valid()
    && Target(op) != op.base
  }

  ghost predicate ManifestKept(s: System, m: Manifest) {
    && m.source in s.history
    && forall i :: 0 <= i < |m.operations| ==> BuiltOn(m.operations[i], s.history[m.source])
  }

  /** A published path holds what was published, or someone else wrote it since. */
  ghost predicate PublicationHolds(s: System, m: Manifest)
    requires m in s.sent
  {
    forall i :: 0 <= i < |m.operations| ==>
      var op := m.operations[i]; op.path in s.sent[m] || HostVersion(s, op.path) == Target(op)
  }

  /** The paths at which baseline and host may differ, and why. */
  ghost function Excused(s: System): set<Path> {
    s.base.conflicts.Keys + s.edited + s.hidden + s.overtaken + s.awaiting
  }

  ghost predicate InSync(s: System, p: Path) {
    p !in Excused(s) ==> BaseOfSystem(s, p) == HostVersion(s, p)
  }

  ghost predicate Recorded(s: System, b: Baseline) {
    b.snapshot.id in s.history && s.history[b.snapshot.id] == b.snapshot.files
  }

  ghost predicate Inv(s: System) {
    && Recorded(s, s.base)
    && (s.saved.Some? ==> Recorded(s, s.saved.value))
    && (forall m :: m in s.sent ==> m in s.offered)
    && (forall m :: m in s.offered ==> ManifestKept(s, m))
    && (forall m :: m in s.sent ==> PublicationHolds(s, m))
    && (forall p :: InSync(s, p))
  }

  lemma SameHostFileSameVersion(a: Host, b: Host, p: Path)
    requires Lookup(a, p) == Lookup(b, p)
    ensures VersionOf(HostTree(a), p) == VersionOf(HostTree(b), p)
  {
  }

  lemma SameTreeFileSameVersion(a: Tree, b: Tree, p: Path)
    requires Lookup(a, p) == Lookup(b, p)
    ensures VersionOf(a, p) == VersionOf(b, p)
  {
  }

  lemma LandedIsTarget(t: Tree, op: PublishOperation)
    requires op.Valid() && (op.operation == Delete || op.stagedMode.Some?) && Landed(t, op)
    ensures VersionOf(t, op.path) == Target(op)
  {
  }

  lemma StagedIsTarget(l: Listing, op: PublishOperation)
    requires op.Valid() && (op.operation == Delete || op.stagedMode.Some?)
    requires StillStaged(l, PublishedOperation(op.path, op.operation, op.stagedDigest, op.stagedMode))
    ensures VersionIn(l, op.path) == Target(op)
  {
  }

  lemma InitInv(s: System)
    requires Init(s)
    ensures Inv(s)
  {
    forall p ensures InSync(s, p) {
      SeedMatchesHost(s.host, s.base.snapshot.id, p);
    }
  }

  lemma SeedMatchesHost(host: Host, id: Id, p: Path)
    ensures VersionIn(SeedSnapshot(host, id).files, p) == VersionOf(HostTree(host), p)
  {
  }

  /** Manifests stay kept and publications stay held while history only grows and the host stays. */
  lemma SameHostKeepsBatches(s: System, t: System)
    requires Inv(s) && t.host == s.host && t.offered == s.offered && t.sent == s.sent
    requires forall id :: id in s.history ==> Lookup(t.history, id) == Lookup(s.history, id)
    ensures forall m :: m in t.sent ==> m in t.offered
    ensures forall m :: m in t.offered ==> ManifestKept(t, m)
    ensures forall m :: m in t.sent ==> PublicationHolds(t, m)
  {
    forall m | m in t.offered ensures ManifestKept(t, m) {
      assert ManifestKept(s, m);
      assert Lookup(t.history, m.source) == Lookup(s.history, m.source);
    }
    forall m | m in t.sent ensures PublicationHolds(t, m) {
      assert PublicationHolds(s, m);
    }
  }

  lemma HostEditInv(s: System, p: Path, t: System)
    requires Inv(s) && Next(s, HostEdit(p), t)
    ensures Inv(t)
  {
    forall q | q !in {p} ensures Lookup(HostTree(t.host), q) == Lookup(HostTree(s.host), q) {
      HostTreeLookup(s.host, q);
      HostTreeLookup(t.host, q);
    }
    OtherWritesInv(s, {p}, t);
  }

  /** Whoever else writes the host, the paths written are noted. */
  lemma OtherWritesInv(s: System, ps: set<Path>, t: System)
    requires Inv(s)
    requires forall q :: q !in ps ==> Lookup(HostTree(t.host), q) == Lookup(HostTree(s.host), q)
    requires t == AfterOthersWrote(s, ps, t.host)
    ensures Inv(t)
  {
    forall m | m in t.sent ensures PublicationHolds(t, m) {
      assert PublicationHolds(s, m);
      forall i | 0 <= i < |m.operations| && m.operations[i].path !in ps
        ensures HostVersion(t, m.operations[i].path) == HostVersion(s, m.operations[i].path)
      {
        SameTreeFileSameVersion(HostTree(s.host), HostTree(t.host), m.operations[i].path);
      }
    }
    forall q ensures InSync(t, q) {
      assert InSync(s, q);
      if q !in ps { SameTreeFileSameVersion(HostTree(s.host), HostTree(t.host), q); }
    }
    forall m | m in t.offered ensures ManifestKept(t, m) { assert ManifestKept(s, m); }
  }

  /** Staging, the disk baseline, and whether the executor runs do not bear on the host. */
  lemma OwnStateInv(s: System, t: System)
    requires Inv(s) && t == s.(work := t.work, saved := t.saved, up := t.up)
    requires t.saved.Some? ==> Recorded(s, t.saved.value)
    ensures Inv(t)
  {
    SameHostKeepsBatches(s, t);
    forall p ensures InSync(t, p) { assert InSync(s, p); }
  }

  lemma OfferInv(s: System, m: Manifest, selection: Option<set<Path>>, never: set<Path>, t: System)
    requires Inv(s) && Next(s, Offer(m, selection, never), t)
    ensures Inv(t)
  {
    var withheld := s.base.conflicts.Keys + never;
    forall i | 0 <= i < |m.operations| ensures BuiltOn(m.operations[i], s.base.snapshot.files) {
      OfferedIsBuiltOn(s.base.snapshot, s.work, withheld, selection, m, i);
    }
    forall n | n in t.offered ensures ManifestKept(t, n) {
      if n != m { assert ManifestKept(s, n); }
    }
    forall n | n in t.sent ensures PublicationHolds(t, n) { assert PublicationHolds(s, n); }
    forall p ensures InSync(t, p) { assert InSync(s, p); }
  }

  lemma OfferedIsBuiltOn(s: Snapshot, t: Tree, withheld: set<Path>, selection: Option<set<Path>>, m: Manifest, i: nat)
    requires m.batchIndex >= 1
    requires m == ManifestOf(m.workspace, s.id, Pending(s, Visible(t), withheld, selection), t, m.batchIndex)
    requires i < |m.operations|
    ensures BuiltOn(m.operations[i], s.files)
  {
    var cs := Pending(s, Visible(t), withheld, selection);
    var first := Greedy(cs)[0];
    assert m.operations == OperationsFor(first, t);
    assert first == cs[..|first|];
    BatchIsSound(s, t, withheld, selection, |first|, i);
    OperationMeaning(s, t, cs[i].path);
    OperationMoves(s, t, cs[i].path);
  }

  lemma OperationMoves(s: Snapshot, t: Tree, p: Path)
    requires Differs(s, Visible(t), p)
    ensures var op := OperationFor(ChangeAt(s, Visible(t), p), t);
            Target(op) == VersionOf(t, p) && Target(op) != VersionIn(s.files, p) && (op.operation == Delete || op.stagedMode.Some?)
  {
  }

  lemma PublishInv(s: System, m: Manifest, t: System)
    requires Inv(s) && Next(s, Publish(m), t)
    ensures Inv(t)
  {
    assert ManifestKept(s, m);
    forall n | n in t.offered ensures ManifestKept(t, n) { assert ManifestKept(s, n); }
    forall n | n in t.sent ensures PublicationHolds(t, n) {
      PublishKeepsPublication(s, m, t, n);
    }
    forall p ensures InSync(t, p) {
      assert InSync(s, p);
      if p !in OperationPaths(m.operations) { SameHostFileSameVersion(s.host, t.host, p); }
    }
  }

  lemma PublishKeepsPublication(s: System, m: Manifest, t: System, n: Manifest)
    requires Inv(s) && Next(s, Publish(m), t) && n in t.sent
    ensures PublicationHolds(t, n)
  {
    assert ManifestKept(s, m);
    assert n != m ==> n in s.sent && PublicationHolds(s, n);
    forall i | 0 <= i < |n.operations|
      ensures n.operations[i].path in t.sent[n] || HostVersion(t, n.operations[i].path) == Target(n.operations[i])
    {
      var op := n.operations[i];
      if n == m {
        assert BuiltOn(op, s.history[m.source]);
        LandedIsTarget(HostTree(t.host), op);
      } else if op.path !in OperationPaths(m.operations) {
        SameHostFileSameVersion(s.host, t.host, op.path);
      }
    }
  }

  /** What an accepted receipt makes of the baseline at one path. */
  lemma ReceiptEffect(s: System, m: Manifest, nextId: Id, kept: bool, t: System, p: Path)
    requires Inv(s) && Next(s, ReceiptAccepted(m, nextId, kept), t)
    ensures p !in OperationPaths(m.operations) ==> BaseOfSystem(t, p) == BaseOfSystem(s, p)
    ensures forall i :: 0 <= i < |m.operations| && m.operations[i].path == p ==> BaseOfSystem(t, p) == Target(m.operations[i])
  {
    assert ManifestKept(s, m);
    ReceiptCoversManifest(m);
    var ops := ReceiptFor(m).operations;
    assert Lookup(t.base.snapshot.files, p)
        == if p in Acknowledged(ops, |ops|) then Lookup(Visible(s.work), p) else Lookup(s.base.snapshot.files, p);
    forall i | 0 <= i < |m.operations| && m.operations[i].path == p ensures BaseOfSystem(t, p) == Target(m.operations[i]) {
      var op := m.operations[i];
      assert BuiltOn(op, s.history[m.source]);
      assert ReceiptFor(m).operations[i] == PublishedOperation(op.path, op.operation, op.stagedDigest, op.stagedMode);
      StagedIsTarget(Visible(s.work), op);
    }
  }

  lemma ReceiptInv(s: System, m: Manifest, nextId: Id, kept: bool, t: System)
    requires Inv(s) && Next(s, ReceiptAccepted(m, nextId, kept), t)
    ensures Inv(t)
  {
    SameHostKeepsBatches(s, t);
    assert PublicationHolds(s, m);
    forall p ensures InSync(t, p) {
      assert InSync(s, p);
      ReceiptEffect(s, m, nextId, kept, t, p);
      if p in OperationPaths(m.operations) {
        var i :| 0 <= i < |m.operations| && m.operations[i].path == p;
      }
    }
  }

  lemma RebasesInv(
    s: System, from: Baseline, keep: set<Path>, take: set<Path>, faults: set<Path>, report: Report, nextId: Id, kept: bool, t: System)
    requires Inv(s) && Recorded(s, from) && Rebases(s, from, keep, take, faults, report, nextId, kept, t)
    ensures Inv(t)
    ensures t.base.snapshot.id == from.snapshot.id || t.base.snapshot.id !in s.history
    ensures forall id :: id in s.history ==> Lookup(t.history, id) == Lookup(s.history, id)
  {
    var f := Facing(from, s.host, s.work, keep, take, faults);
    SameIdSameFiles(f, t.base, t.work, report, nextId);
    SameHostKeepsBatches(s, t);
    forall p ensures InSync(t, p) {
      RebaseSettlesEveryPath(f, t.base, t.work, report, nextId, p);
      if p !in t.hidden { SeenIsTrue(f, p); }
    }
  }

  /** Away from the missed paths a rebase compares with what is really on the host. */
  lemma SeenIsTrue(f: Situation, p: Path)
    requires f == Facing(f.baseline, f.host, f.staged, f.keep, f.take, f.faults)
    requires p !in Missed(f.baseline.snapshot, f.host)
    ensures f.H(p) == VersionOf(HostTree(f.host), p)
  {
    if p in f.host {
      assert !Stale(f.baseline.snapshot, f.host, p);
      assert f.seen[p] == Observe(f.baseline.snapshot, p, f.host[p]);
    }
  }

  lemma SeedsInv(s: System, nextId: Id, kept: bool, t: System)
    requires Inv(s) && Seeds(s, nextId, kept, t)
    ensures Inv(t)
  {
    SameHostKeepsBatches(s, t);
    forall p ensures InSync(t, p) {
      SeedMatchesHost(s.host, nextId, p);
    }
  }

  lemma NextInv(s: System, e: Event, t: System)
    requires Inv(s) && Next(s, e, t)
    ensures Inv(t)
  {
    match e
    case HostEdit(p) => HostEditInv(s, p, t);
    case Offer(m, selection, never) => OfferInv(s, m, selection, never, t);
    case Publish(m) => PublishInv(s, m, t);
    case PublishFailed(m, unrestored) => OtherWritesInv(s, unrestored, t);
    case ReceiptAccepted(m, nextId, kept) => ReceiptInv(s, m, nextId, kept, t);
    case RebaseDone(keep, take, faults, report, nextId, kept) => RebasesInv(s, s.base, keep, take, faults, report, nextId, kept, t);
    case Restart(faults, report, nextId) => RebasesInv(s, s.saved.value, {}, {}, faults, report, nextId, true, t);
    case DiscardDone(nextId, kept) => SeedsInv(s, nextId, kept, t);
    case Reseed(nextId) => SeedsInv(s, nextId, true, t);
    case _ => OwnStateInv(s, t);
  }
}
