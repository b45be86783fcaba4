/** Properties of whole runs of the protocol. */
module Runs {
  import opened Common
  import opened Paths
  import opened Staging
  import opened Drift
  import opened DriftTheorems
  import opened Publication
  import opened Broker
  import opened Protocol

  ghost predicate IsRun(states: seq<System>, events: seq<Event>) {
    && |states| == |events| + 1
    && Init(states[0])
    && forall i :: 0 <= i < |events| ==> Next(states[i], events[i], states[i + 1])
  }

  lemma {:induction false} RunKeepsInvariant(states: seq<System>, events: seq<Event>, i: nat)
    requires IsRun(states, events) && i < |states|
    ensures Inv(states[i])
  {
    if i == 0 {
      InitInv(states[0]);
    } else {
      RunKeepsInvariant(states, events, i - 1);
      NextInv(states[i - 1], events[i - 1], states[i]);
    }
  }

  lemma StepOf(states: seq<System>, events: seq<Event>, k: nat)
    requires IsRun(states, events) && k < |events|
    ensures Inv(states[k]) && Next(states[k], events[k], states[k + 1]) && Inv(states[k + 1])
  {
    RunKeepsInvariant(states, events, k);
    RunKeepsInvariant(states, events, k + 1);
  }

  /** Over every run, whatever fails, baseline and host agree (digest and mode) at each path that is not an open
      conflict, was not edited on the host since the last sync, awaits no receipt, was not hidden from the last sync
      by an unchanged signature, and was not acknowledged after someone else had changed the published file. */
  lemma BaselineTracksHost(states: seq<System>, events: seq<Event>, i: nat, p: Path)
    requires IsRun(states, events) && i < |states|
    requires p !in Excused(states[i])
    ensures BaseOfSystem(states[i], p) == HostVersion(states[i], p)
  {
    RunKeepsInvariant(states, events, i);
    assert InSync(states[i], p);
  }

  lemma HistoryStep(s: System, e: Event, t: System, id: Id)
    requires Inv(s) && Next(s, e, t) && id in s.history
    ensures id in t.history && t.history[id] == s.history[id]
  {
    match e
    case RebaseDone(keep, take, faults, report, nextId, kept) => RebasesInv(s, s.base, keep, take, faults, report, nextId, kept, t);
    case Restart(faults, report, nextId) => RebasesInv(s, s.saved.value, {}, {}, faults, report, nextId, true, t);
    case _ => OthersGrowHistory(s, e, t, id);
  }

  lemma OthersGrowHistory(s: System, e: Event, t: System, id: Id)
    requires Next(s, e, t) && !e.RebaseDone? && !e.Restart? && id in s.history
    ensures id in t.history && t.history[id] == s.history[id]
  {
  }

  lemma HistoryAt(states: seq<System>, events: seq<Event>, k: nat, id: Id)
    requires IsRun(states, events) && k < |events| && id in states[k].history
    ensures id in states[k + 1].history && states[k + 1].history[id] == states[k].history[id]
  {
    StepOf(states, events, k);
    HistoryStep(states[k], events[k], states[k + 1], id);
  }

  /** What each step preserves lasts. */
  lemma {:induction false} Lasts(holds: seq<bool>, k: nat, l: nat)
    requires k <= l < |holds| && holds[k] && forall i :: k <= i < l && holds[i] ==> holds[i + 1]
    ensures holds[l]
  {
    if k < l {
      Lasts(holds, k, l - 1);
    }
  }

  lemma HistoryIsForever(states: seq<System>, events: seq<Event>, i: nat, j: nat, id: Id)
    requires IsRun(states, events) && i <= j < |states| && id in states[i].history
    ensures id in states[j].history && states[j].history[id] == states[i].history[id]
  {
    var was := states[i].history[id];
    var holds := seq(|states|, n requires 0 <= n < |states| => Lookup(states[n].history, id) == Some(was));
    forall n | i <= n < j && holds[n] ensures holds[n + 1] {
      HistoryAt(states, events, n, id);
    }
    Lasts(holds, i, j);
  }

  /** Two states of one run with the same snapshot id have the same digests, sizes and modes. */
  lemma SnapshotIdNamesOneBaseline(states: seq<System>, events: seq<Event>, i: nat, j: nat)
    requires IsRun(states, events) && i <= j < |states|
    requires states[i].base.snapshot.id == states[j].base.snapshot.id
    ensures states[i].base.snapshot.files == states[j].base.snapshot.files
  {
    RunKeepsInvariant(states, events, i);
    RunKeepsInvariant(states, events, j);
    HistoryIsForever(states, events, i, j, states[i].base.snapshot.id);
  }

  /** An accepted receipt always refers to the baseline its manifest was built from: every operation
      starts at the current baseline and the receipt moves it to exactly what was published. */
  lemma AcceptedReceiptFitsItsManifest(states: seq<System>, events: seq<Event>, k: nat, m: Manifest, nextId: Id, kept: bool, i: nat)
    requires IsRun(states, events) && k < |events| && events[k] == ReceiptAccepted(m, nextId, kept)
    requires i < |m.operations|
    ensures m.operations[i].base == BaseOfSystem(states[k], m.operations[i].path)
    ensures BaseOfSystem(states[k + 1], m.operations[i].path) == Target(m.operations[i]) != m.operations[i].base
  {
    StepOf(states, events, k);
    ReceiptFits(states[k], m, nextId, kept, states[k + 1], i);
  }

  lemma ReceiptFits(s: System, m: Manifest, nextId: Id, kept: bool, t: System, i: nat)
    requires Inv(s) && Next(s, ReceiptAccepted(m, nextId, kept), t) && i < |m.operations|
    ensures m.operations[i].base == BaseOfSystem(s, m.operations[i].path)
    ensures BaseOfSystem(t, m.operations[i].path) == Target(m.operations[i]) != m.operations[i].base
  {
    assert ManifestKept(s, m);
    assert BuiltOn(m.operations[i], s.history[m.source]);
    ReceiptEffect(s, m, nextId, kept, t, m.operations[i].path);
  }

  // ---- can a baseline come back? ----

  /** The executor comes up again from a disk baseline that lags behind memory, and its rebase finds nothing to do. */
  ghost predicate ReturnsTo(s: System, e: Event, id: Id) {
    && e.Restart? && s.saved.Some? && s.saved.value.snapshot.id == id && s.base.snapshot.id != id
    && forall p :: Undisturbed(Facing(s.saved.value, s.host, s.work, {}, {}, e.faults), p)
  }

  lemma NextIds(s: System, e: Event, t: System, id: Id)
    requires Inv(s) && Next(s, e, t) && id in s.history && s.base.snapshot.id != id
    ensures t.base.snapshot.id == id <==> ReturnsTo(s, e, id)
    ensures t.saved.Some? && t.saved.value.snapshot.id == id ==> s.saved.Some? && s.saved.value.snapshot.id == id
  {
    match e
    case RebaseDone(keep, take, faults, report, nextId, kept) => RebaseMovesOn(s, keep, take, faults, report, nextId, kept, t);
    case Restart(faults, report, nextId) => RestartIds(s, faults, report, nextId, t, id);
    case _ => OthersMoveOn(s, e, t);
  }

  lemma RebaseMovesOn(
    s: System, keep: set<Path>, take: set<Path>, faults: set<Path>, report: Report, nextId: Id, kept: bool, t: System)
    requires Inv(s) && Rebases(s, s.base, keep, take, faults, report, nextId, kept, t)
    ensures t.base.snapshot.id == s.base.snapshot.id || t.base.snapshot.id !in s.history
    ensures t.saved == s.saved || t.saved == Some(t.base)
  {
    RebasesInv(s, s.base, keep, take, faults, report, nextId, kept, t);
  }

  lemma RestartIds(s: System, faults: set<Path>, report: Report, nextId: Id, t: System, id: Id)
    requires Inv(s) && s.saved.Some? && id in s.history && s.base.snapshot.id != id
    requires Rebases(s, s.saved.value, {}, {}, faults, report, nextId, true, t)
    ensures t.base.snapshot.id == id <==> ReturnsTo(s, Restart(faults, report, nextId), id)
    ensures t.saved.Some? && t.saved.value.snapshot.id == id ==> s.saved.value.snapshot.id == id
  {
    RebasesInv(s, s.saved.value, {}, {}, faults, report, nextId, true, t);
    KeepsIdIffUndisturbed(Facing(s.saved.value, s.host, s.work, {}, {}, faults), t.base, t.work, report, nextId);
  }

  lemma OthersMoveOn(s: System, e: Event, t: System)
    requires Next(s, e, t) && !e.RebaseDone? && !e.Restart?
    ensures t.base.snapshot.id == s.base.snapshot.id || t.base.snapshot.id !in s.history
    ensures t.saved == s.saved || t.saved == None || t.saved == Some(t.base)
  {
  }

  /** A snapshot id the baseline has left returns in a step of a run if and only if the step is a restart, the disk
      still held that id because a save had failed, and every path is undisturbed since. */
  lemma RetiredIdReturnsIff(states: seq<System>, events: seq<Event>, k: nat, id: Id)
    requires IsRun(states, events) && k < |events| && id in states[k].history && states[k].base.snapshot.id != id
    ensures states[k + 1].base.snapshot.id == id <==> ReturnsTo(states[k], events[k], id)
  {
    StepOf(states, events, k);
    NextIds(states[k], events[k], states[k + 1], id);
  }

  ghost predicate Left(s: System, id: Id) {
    id in s.history && s.base.snapshot.id != id && (s.saved.Some? ==> s.saved.value.snapshot.id != id)
  }

  lemma LeftAt(states: seq<System>, events: seq<Event>, k: nat, id: Id)
    requires IsRun(states, events) && k < |events| && Left(states[k], id)
    ensures Left(states[k + 1], id)
  {
    StepOf(states, events, k);
    HistoryStep(states[k], events[k], states[k + 1], id);
    NextIds(states[k], events[k], states[k + 1], id);
  }

  /** Once the baseline has left a snapshot id in memory and on disk it never comes back to it. */
  lemma RetiredIdStaysRetired(states: seq<System>, events: seq<Event>, k: nat, l: nat, id: Id)
    requires IsRun(states, events) && k <= l < |states| && Left(states[k], id)
    ensures Left(states[l], id)
  {
    var holds := seq(|states|, n requires 0 <= n < |states| => Left(states[n], id));
    forall n | k <= n < l && holds[n] ensures holds[n + 1] {
      LeftAt(states, events, n, id);
    }
    Lasts(holds, k, l);
  }

  /** An accepted receipt leaves the id its manifest names; on disk too, if it is saved. */
  lemma AcceptanceLeaves(states: seq<System>, events: seq<Event>, k: nat, m: Manifest, nextId: Id, kept: bool)
    requires IsRun(states, events) && k < |events| && events[k] == ReceiptAccepted(m, nextId, kept)
    ensures states[k].base.snapshot.id == m.source
    ensures m.source in states[k + 1].history && states[k + 1].base.snapshot.id != m.source
    ensures kept ==> Left(states[k + 1], m.source)
  {
    StepOf(states, events, k);
  }

  /** A receipt whose acceptance was saved is never accepted again, whatever happens in between. */
  lemma NoReceiptTwice(states: seq<System>, events: seq<Event>, k: nat, l: nat, m: Manifest, id1: Id, id2: Id, kept: bool)
    requires IsRun(states, events) && k < l < |events|
    requires events[k] == ReceiptAccepted(m, id1, true)
    ensures events[l] != ReceiptAccepted(m, id2, kept)
  {
    AcceptanceLeaves(states, events, k, m, id1, true);
    if events[l] == ReceiptAccepted(m, id2, kept) {
      AcceptanceLeaves(states, events, l, m, id2, kept);
    }
    RetiredIdStaysRetired(states, events, k + 1, l, m.source);
  }

  /** Where an id that memory had left is current again, some restart in between returned to it. */
  lemma {:induction false} ReturnLiesBetween(states: seq<System>, events: seq<Event>, k: nat, l: nat, id: Id) returns (j: nat)
    requires IsRun(states, events) && k <= l < |states|
    requires id in states[k].history && states[k].base.snapshot.id != id && states[l].base.snapshot.id == id
    ensures k <= j < l && ReturnsTo(states[j], events[j], id)
  {
    HistoryIsForever(states, events, k, l - 1, id);
    if states[l - 1].base.snapshot.id == id {
      j := ReturnLiesBetween(states, events, k, l - 1, id);
    } else {
      j := l - 1;
      RetiredIdReturnsIff(states, events, j, id);
    }
  }

  /** A receipt accepted a second time was accepted the first time without being saved, and in between the executor
      restarted from the old baseline and found every path undisturbed. */
  lemma SecondAcceptanceNeedsAReturn(
    states: seq<System>, events: seq<Event>, k: nat, l: nat, m: Manifest, id1: Id, id2: Id, kept1: bool, kept2: bool)
    returns (j: nat)
    requires IsRun(states, events) && k < l < |events|
    requires events[k] == ReceiptAccepted(m, id1, kept1) && events[l] == ReceiptAccepted(m, id2, kept2)
    ensures !kept1 && k < j < l && ReturnsTo(states[j], events[j], m.source)
  {
    if kept1 {
      NoReceiptTwice(states, events, k, l, m, id1, id2, kept2);
    }
    AcceptanceLeaves(states, events, k, m, id1, kept1);
    AcceptanceLeaves(states, events, l, m, id2, kept2);
    j := ReturnLiesBetween(states, events, k + 1, l, m.source);
  }

  /** The receipt can be accepted (again): it names the current baseline and staging still holds what it says. */
  ghost predicate Acceptable(s: System, m: Manifest) {
    && s.up && m in s.sent && m.source == s.base.snapshot.id
    && forall i :: 0 <= i < |m.operations| ==> StillStaged(Visible(s.work), ReceiptFor(m).operations[i])
  }

  /** After a restart from a disk that still names the manifest's baseline, a receipt that staging still matches fits
      again exactly when no published path is seen on the host as published and every other path is undisturbed. */
  lemma ReceiptFitsAgainIff(states: seq<System>, events: seq<Event>, k: nat, m: Manifest, faults: set<Path>, report: Report, nextId: Id)
    requires IsRun(states, events) && k < |events| && events[k] == Restart(faults, report, nextId)
    requires m in states[k].sent && states[k].saved.Some? && states[k].saved.value.snapshot.id == m.source
    requires forall i :: 0 <= i < |m.operations| ==> StillStaged(Visible(states[k].work), ReceiptFor(m).operations[i])
    ensures var f := Facing(states[k].saved.value, states[k].host, states[k].work, {}, {}, faults);
            Acceptable(states[k + 1], m) <==>
              && (forall i :: 0 <= i < |m.operations| ==> f.H(m.operations[i].path) != Target(m.operations[i]))
              && (forall i :: 0 <= i < |m.operations| ==>
                    f.H(m.operations[i].path) == f.B(m.operations[i].path) ==> m.operations[i].path !in f.baseline.conflicts)
              && (forall p :: p !in OperationPaths(m.operations) ==> Undisturbed(f, p))
  {
    var s, t := states[k], states[k + 1];
    StepOf(states, events, k);
    var f := Facing(s.saved.value, s.host, s.work, {}, {}, faults);
    KeepsIdIffUndisturbed(f, t.base, t.work, report, nextId);
    RebasesInv(s, s.saved.value, {}, {}, faults, report, nextId, true, t);
    forall i | 0 <= i < |m.operations|
      ensures var p := m.operations[i].path;
              Undisturbed(f, p) <==> f.H(p) != Target(m.operations[i]) && (f.H(p) == f.B(p) ==> p !in f.baseline.conflicts)
    {
      StagedPathUndisturbedIff(s, m, f, i);
    }
    if forall p :: Undisturbed(f, p) {
      SameIdSameFiles(f, t.base, t.work, report, nextId);
    }
    forall p | p in OperationPaths(m.operations) ensures exists i :: 0 <= i < |m.operations| && m.operations[i].path == p {
    }
  }

  lemma StagedPathUndisturbedIff(s: System, m: Manifest, f: Situation, i: nat)
    requires Inv(s) && m in s.sent && s.saved.Some? && s.saved.value.snapshot.id == m.source
    requires f == Facing(s.saved.value, s.host, s.work, {}, {}, f.faults) && i < |m.operations|
    requires StillStaged(Visible(s.work), ReceiptFor(m).operations[i])
    ensures var p := m.operations[i].path;
            Undisturbed(f, p) <==> f.H(p) != Target(m.operations[i]) && (f.H(p) == f.B(p) ==> p !in f.baseline.conflicts)
  {
    var op := m.operations[i];
    assert ManifestKept(s, m) && Recorded(s, s.saved.value);
    assert BuiltOn(op, s.history[m.source]);
    StagedIsTarget(Visible(s.work), op);
    assert f.S(op.path) == Target(op) != f.B(op.path);
  }

  // ---- what publication and rebases may overwrite ----

  /** With a batch as one step no host edit is lost: a host file is replaced or removed by publication, also by one that
      fails half way, only while it is the very version (content and mode) that the manifest's baseline recorded and the
      user reviewed. */
  lemma HostEditsAreNeverOverwritten(states: seq<System>, events: seq<Event>, k: nat, m: Manifest, p: Path)
    requires IsRun(states, events) && k < |events|
    requires events[k] == Publish(m) || (events[k].PublishFailed? && events[k].m == m)
    requires Lookup(states[k + 1].host, p) != Lookup(states[k].host, p)
    ensures m.source in states[k].history
    ensures HostVersion(states[k], p) == VersionIn(states[k].history[m.source], p)
  {
    StepOf(states, events, k);
    assert ManifestKept(states[k], m);
    assert p in OperationPaths(m.operations);
    var i :| 0 <= i < |m.operations| && m.operations[i].path == p;
    assert BuiltOn(m.operations[i], states[k].history[m.source]);
    assert Ready(HostTree(states[k].host), m.operations[i]);
  }

  /** The executor's own steps on staging files, and the baseline each starts from. */
  ghost predicate IsRebase(e: Event) {
    e.RebaseDone? || e.RebaseStopped? || e.Restart? || e.RestartStopped?
  }

  ghost function StartsFrom(s: System, e: Event): Baseline {
    if (e.Restart? || e.RestartStopped?) && s.saved.Some? then s.saved.value else s.base
  }

  ghost function Taken(e: Event): set<Path> {
    match e
    case RebaseDone(_, take, _, _, _, _) => take
    case RebaseStopped(_, take, _, _) => take
    case _ => {}
  }

  /** No staged work is lost to a rebase, finished or stopped part way: a staged file changes only where staging held
      the version of the baseline the rebase started from, or where the user chose the host's, and then to exactly the
      host's file. Other events of the executor change staging only by discarding it. */
  lemma StagedWorkIsNeverOverwritten(states: seq<System>, events: seq<Event>, k: nat, p: Path)
    requires IsRun(states, events) && k < |events|
    requires Lookup(states[k + 1].work, p) != Lookup(states[k].work, p)
    ensures IsRebase(events[k]) || events[k].StageEdit? || events[k].DiscardDone? || events[k].DiscardStopped?
            || events[k].Reseed? || events[k].ReseedStopped?
    ensures IsRebase(events[k]) ==>
              && (VersionOf(states[k].work, p) == VersionIn(StartsFrom(states[k], events[k]).snapshot.files, p) || p in Taken(events[k]))
              && Lookup(states[k + 1].work, p) == Lookup(HostTree(states[k].host), p)
  {
    StepOf(states, events, k);
    WhoWritesStaging(states[k], events[k], states[k + 1]);
    if IsRebase(events[k]) {
      RebaseWrites(states[k], events[k], states[k + 1], p);
    }
  }

  lemma WhoWritesStaging(s: System, e: Event, t: System)
    requires Next(s, e, t) && t.work != s.work
    ensures IsRebase(e) || e.StageEdit? || e.DiscardDone? || e.DiscardStopped? || e.Reseed? || e.ReseedStopped?
  {
  }

  lemma RebaseWrites(s: System, e: Event, t: System, p: Path)
    requires Next(s, e, t) && IsRebase(e) && Lookup(t.work, p) != Lookup(s.work, p)
    ensures VersionOf(s.work, p) == VersionIn(StartsFrom(s, e).snapshot.files, p) || p in Taken(e)
    ensures Lookup(t.work, p) == Lookup(HostTree(s.host), p)
  {
    match e
    case RebaseDone(keep, take, faults, report, nextId, kept) =>
      RebaseKeepsStagedWork(Facing(s.base, s.host, s.work, keep, take, faults), t.base, t.work, report, nextId, p);
    case Restart(faults, report, nextId) =>
      RebaseKeepsStagedWork(Facing(s.saved.value, s.host, s.work, {}, {}, faults), t.base, t.work, report, nextId, p);
    case RebaseStopped(keep, take, faults, alive) =>
      StoppedRebaseKeepsStagedWork(Facing(s.base, s.host, s.work, keep, take, faults), t.work, p);
    case RestartStopped(faults) =>
      StoppedRebaseKeepsStagedWork(Facing(s.saved.value, s.host, s.work, {}, {}, faults), t.work, p);
  }

  lemma StoppedRebaseKeepsStagedWork(f: Situation, files: Tree, p: Path)
    requires f.WellFormed() && f.PartlyInstalled(files) && Lookup(files, p) != Lookup(f.staged, p)
    ensures (f.S(p) == f.B(p) || p in f.take) && Lookup(files, p) == Lookup(HostTree(f.host), p)
  {
    assert f.Decide(p).install && Lookup(files, p) == f.After(p).file;
  }

  /** Work staged on top of the baseline in memory is replaced by a restart if and only if the disk lags behind: at
      that path it records what staging holds, and the host holds something else that can be installed. */
  lemma RestartReplacesStagedWorkIff(states: seq<System>, events: seq<Event>, k: nat, faults: set<Path>, report: Report, nextId: Id, p: Path)
    requires IsRun(states, events) && k < |events| && events[k] == Restart(faults, report, nextId)
    requires VersionOf(states[k].work, p) != BaseOfSystem(states[k], p)
    ensures states[k].saved.Some?
    ensures var f := Facing(states[k].saved.value, states[k].host, states[k].work, {}, {}, faults);
            VersionOf(states[k + 1].work, p) != VersionOf(states[k].work, p) <==>
              f.S(p) == f.B(p) && f.B(p) != BaseOfSystem(states[k], p) && f.H(p) != f.B(p) && f.Installable(p)
  {
    var s, t := states[k], states[k + 1];
    StepOf(states, events, k);
    var f := Facing(s.saved.value, s.host, s.work, {}, {}, faults);
    assert RowOf(t.base.snapshot, t.base.conflicts, t.work, p) == f.After(p);
    assert Lookup(t.work, p) == f.After(p).file;
    if f.Installable(p) {
      HostVersionSeen(f, p);
      SameTreeFileSameVersion(t.work, if f.Decide(p).install then HostTree(f.host) else s.work, p);
    }
  }

  ghost predicate SavesNothing(e: Event) {
    e.HostEdit? || e.StageEdit? || e.Crash? || e.Offer? || e.Publish? || e.PublishFailed? || e.ReceiptRefused?
  }

  lemma NothingSavedAt(states: seq<System>, events: seq<Event>, k: nat)
    requires IsRun(states, events) && k < |events| && SavesNothing(events[k])
    ensures states[k + 1].saved == states[k].saved
  {
    assert Next(states[k], events[k], states[k + 1]);
  }

  lemma LeavesNothingSaved(states: seq<System>, events: seq<Event>, k: nat, id: Id)
    requires IsRun(states, events) && k < |events| && events[k] == DiscardDone(id, false)
    ensures states[k + 1].saved.None?
  {
    assert Next(states[k], events[k], states[k + 1]);
  }

  lemma MustStartOver(states: seq<System>, events: seq<Event>, k: nat)
    requires IsRun(states, events) && k < |events| && states[k].saved.None? && (events[k].Restart? || events[k].Reseed?)
    ensures events[k].Reseed? && states[k + 1].work == HostTree(states[k].host)
  {
    assert Next(states[k], events[k], states[k + 1]);
  }

  /** After a discard whose new baseline was not saved, and as long as nothing else is saved, the executor can only
      come up by starting over from the host: whatever was staged since is gone. */
  lemma UnsavedDiscardIsRepeated(states: seq<System>, events: seq<Event>, k: nat, l: nat, id: Id)
    requires IsRun(states, events) && k < l < |events| && events[k] == DiscardDone(id, false)
    requires forall i :: k < i < l ==> SavesNothing(events[i])
    requires events[l].Restart? || events[l].Reseed?
    ensures events[l].Reseed? && states[l + 1].work == HostTree(states[l].host)
  {
    LeavesNothingSaved(states, events, k, id);
    var holds := seq(|states|, n requires 0 <= n < |states| => states[n].saved.None?);
    forall n | k + 1 <= n < l && holds[n] ensures holds[n + 1] {
      NothingSavedAt(states, events, n);
    }
    Lasts(holds, k + 1, l);
    MustStartOver(states, events, l);
  }

  // ---- the one way an accepted receipt leaves the two sides apart ----

  /** An accepted receipt leaves baseline and host equal at a published path exactly when the host still
      holds what was published. The executor does not look: it takes the worker's word. */
  lemma AcceptedReceiptSyncsIffHostUnmoved(states: seq<System>, events: seq<Event>, k: nat, m: Manifest, nextId: Id, kept: bool, i: nat)
    requires IsRun(states, events) && k < |events| && events[k] == ReceiptAccepted(m, nextId, kept)
    requires i < |m.operations|
    ensures var p := m.operations[i].path;
            BaseOfSystem(states[k + 1], p) == HostVersion(states[k + 1], p)
            <==> HostVersion(states[k], p) == Target(m.operations[i])
  {
    StepOf(states, events, k);
    ReceiptFits(states[k], m, nextId, kept, states[k + 1], i);
  }
}
