/** The executor's control plane: the state machine around the baseline and its open conflicts. */
module Service {
  import opened Common
  import opened Paths
  import opened Staging
  import opened Drift
  import opened Publication
  import opened Seeding
  import opened StateStore

  const MAX_MANIFEST_PATHS: nat := 10_000

  /** The changes a manifest may offer: not in conflict, not withheld by policy, and selected. */
  function Offered(cs: seq<Change>, withheld: set<Path>, selection: Option<set<Path>>): seq<Change> {
    if cs == [] then [] else
      var c := cs[|cs| - 1];
      Offered(cs[..|cs| - 1], withheld, selection)
      + (if c.path !in withheld && (selection.Some? ==> c.path in selection.value) then [c] else [])
  }

  /** What the next publication has to carry. */
  ghost function Pending(s: Snapshot, l: Listing, withheld: set<Path>, selection: Option<set<Path>>): seq<Change> {
    Offered(Changes(s, l), withheld, selection)
  }

  /** `_publish_operation` */
  function OperationFor(c: Change, work: Tree): PublishOperation {
    if c.operation == Delete || c.path !in work || c.staged == None then
      PublishOperation(c.path, c.operation, BaseOf(c), None, None, None)
    else
      PublishOperation(c.path, c.operation, BaseOf(c), Some(c.staged.value.digest), Some(c.staged.value.mode), Some(work[c.path].content))
  }

  function BaseOf(c: Change): Option<Version> {
    match c.base case Some(e) => Some(VersionOfEntry(e)) case None => None
  }

  function OperationsFor(cs: seq<Change>, work: Tree): seq<PublishOperation> {
    seq(|cs|, i requires 0 <= i < |cs| => OperationFor(cs[i], work))
  }

  datatype ManifestError = InvalidBatchIndex | InvalidSelection | UnknownSelection | FileTooLargeForBatch(path: Path) | TooManyBatches

  /** `NotSaved`: the state volume could not be written after memory had moved. */
  datatype ReceiptError = WrongWorkspace | StaleReceipt | StagingMoved(path: Path) | NotSaved

  datatype RebaseFailure = Stopped(error: RebaseError) | ReportNotSaved(report: Report)

  /** How far `discard` got before the process stopped. */
  datatype DiscardStop = AfterClear | AfterForget | Finished

  function SetOf(ps: seq<Path>): set<Path> {
    set p | p in ps
  }

  function BatchCount(batchIndex: nat, batches: nat): nat
    requires batchIndex >= 1
  {
    batchIndex - 1 + if batches == 0 then 1 else batches
  }

  function SelectionOf(paths: Option<seq<Path>>): Option<set<Path>> {
    match paths case Some(ps) => Some(SetOf(ps)) case None => None
  }

  function ChangedPaths(cs: seq<Change>): set<Path> {
    set c | c in cs :: c.path
  }

  /** The manifest of the first batch of what is offered. */
  function ManifestOf(workspace: string, source: Id, offered: seq<Change>, work: Tree, batchIndex: nat): Manifest
    requires batchIndex >= 1
  {
    var batches := Greedy(offered);
    Manifest(workspace, source, OperationsFor(if batches == [] then [] else batches[0], work),
             batchIndex, BatchCount(batchIndex, |batches|))
  }

  class ExecutorService {
    const workspace: string
    const maxFiles: nat
    const maxBytes: nat
    const neverPublish: set<Path>
    const work: Volume
    const state: StateVolume
    var snapshot: Snapshot
    var conflicts: map<Path, Conflict>

    constructor (workspace: string, maxFiles: nat, maxBytes: nat, neverPublish: set<Path>, work: Volume, state: StateVolume)
      ensures this.workspace == workspace && this.maxFiles == maxFiles && this.maxBytes == maxBytes
      ensures this.neverPublish == neverPublish && this.work == work && this.state == state
    {
      this.workspace, this.maxFiles, this.maxBytes, this.neverPublish := workspace, maxFiles, maxBytes, neverPublish;
      this.work, this.state := work, state;
      snapshot, conflicts := Snapshot(0, map[], map[]), map[];
    }

    ghost function Memory(): Baseline
      reads this
    {
      Baseline(snapshot, conflicts)
    }

    ghost function Disk(): Option<Baseline>
      reads this, state
    {
      Decode(state.baseline)
    }

    /** The saved baseline records the same versions, identity and conflicts as the one in memory.
        Its signatures may be older: a rebase that moves nothing is not saved. */
    ghost predicate Saved()
      reads this, state
    {
      && Keyed(conflicts)
      && Disk().Some?
      && var b := Disk().value;
         b.snapshot.id == snapshot.id && b.snapshot.files == snapshot.files && b.conflicts == conflicts
    }

    ghost function Withheld(): set<Path>
      reads this
    {
      conflicts.Keys + neverPublish
    }

    method Seed(host: Host, id: Id, saveFails: bool) returns (ok: bool)
      modifies this, work, state`baseline
      ensures ok <==> old(work.files) == map[] && WithinStagingLimits(host, maxFiles, maxBytes) && !saveFails
      ensures old(work.files) == map[] && WithinStagingLimits(host, maxFiles, maxBytes) ==>
                work.files == HostTree(host) && snapshot == SeedSnapshot(host, id) && conflicts == map[]
      ensures !(old(work.files) == map[] && WithinStagingLimits(host, maxFiles, maxBytes)) ==> Memory() == old(Memory())
      ensures ok ==> Disk() == Some(Memory())
      ensures !ok ==> state.baseline == old(state.baseline)
      ensures old(work.files) != map[] ==> work.files == old(work.files)
      ensures forall p :: p in work.files ==> p in old(work.files) || p in host
    {
      var r := SeedStaging(maxFiles, maxBytes, work, host, id);
      if r.Err? {
        assert r.error == NotEmpty || r.error == TooLarge;
        return false;
      }
      snapshot, conflicts := r.value, map[];
      ok := state.Save(Baseline(snapshot, conflicts), workspace, saveFails);
    }

    /** Absorb host changes made since the baseline; optionally resolve conflicts. Memory moves before the state
        volume does. */
    method RebaseNow(host: Host, keep: set<Path>, take: set<Path>, faults: set<Path>, nextId: Id, saveFails: bool)
      returns (r: Result<Report, RebaseFailure>)
      requires Keyed(conflicts)
      modifies this, work, state`baseline
      ensures Keyed(conflicts)
      ensures RebaseOutcome(Facing(old(Memory()), host, old(work.files), keep, take, faults), nextId, saveFails,
                            old(Disk()), r, Memory(), work.files, Disk())
      ensures r.Err? ==> state.baseline == old(state.baseline)
      ensures old(Saved()) && !saveFails && nextId != old(snapshot).id ==> Saved()
      ensures take == {} && keep == {} && WithinStagingLimits(host, maxFiles, maxBytes) && !saveFails ==> r.Ok?
    {
      var before := Baseline(snapshot, conflicts);
      var outcome := Rebase(maxFiles, maxBytes, before, host, work, keep, take, faults, nextId);
      if outcome.Err? {
        return Err(Stopped(outcome.error));
      }
      var (after, report) := outcome.value;
      RebasedIsKeyed(Facing(before, host, old(work.files), keep, take, faults), after, work.files, report, nextId);
      QuietRebaseKeepsFiles(Facing(before, host, old(work.files), keep, take, faults), after, work.files, report, nextId);
      var changed := after.snapshot.id != snapshot.id;
      var conflictsChanged := after.conflicts != conflicts;
      snapshot, conflicts := after.snapshot, after.conflicts;
      if changed || conflictsChanged {
        var ok := state.Save(Baseline(snapshot, conflicts), workspace, saveFails);
        if !ok {
          return Err(ReportNotSaved(report));
        }
      }
      return Ok(report);
    }

    /** A restart. It resumes from the saved baseline, or starts over from the host when there is none. */
    method Start(host: Host, workIsDirectory: bool, faults: set<Path>, nextId: Id, saveFails: bool) returns (ok: bool)
      requires !workIsDirectory ==> work.files == map[]
      modifies this, work, state
      ensures ok ==> Keyed(conflicts) && state.identity == Some(Owner(workspace))
      ensures old(state.identity).Some? ==> state.identity == old(state.identity)
      ensures (old(state.identity).None? && ok) || old(state.identity) == Some(Owner(workspace)) ==>
                StartOutcome(if old(state.identity).None? then None else old(Disk()), workIsDirectory, host, old(work.files), faults,
                             nextId, ok, Memory(), work.files, Disk())
      ensures old(state.identity).Some? && old(state.identity) != Some(Owner(workspace)) ==>
                !ok && work.files == old(work.files) && state.baseline == old(state.baseline)
      ensures (&& (old(state.identity) == None || old(state.identity) == Some(Owner(workspace)))
               && WithinStagingLimits(host, maxFiles, maxBytes) && !saveFails) ==> ok
    {
      var claimed := state.Claim(workspace, saveFails);
      if claimed == None {
        return false;
      }
      var baseline := if claimed.value then Decode(state.baseline) else None;
      if baseline.Some? && !workIsDirectory {
        state.ForgetBaseline();
        baseline := None;
      }
      if baseline.Some? {
        snapshot, conflicts := baseline.value.snapshot, baseline.value.conflicts;
        DecodedIsKeyed(state.baseline);
        ghost var facing := Facing(Memory(), host, work.files, {}, {}, faults);
        var r := RebaseNow(host, {}, {}, faults, nextId, saveFails);
        ok := r.Ok?;
        if r.Err? && r.error.ReportNotSaved? {
          AllInstalledIsPartly(facing, Memory(), work.files, r.error.report, nextId);
        }
      } else {
        work.files := map[];
        ok := Seed(host, nextId, saveFails);
      }
    }

    ghost function PendingNow(selection: Option<set<Path>>): seq<Change>
      reads this, work
    {
      Pending(snapshot, Visible(work.files), Withheld(), selection)
    }

    /** A first batch may only select paths that are offered; a later one may find some already published. */
    ghost predicate ValidSelection(batchIndex: int, paths: Option<seq<Path>>)
      reads this, work
    {
      paths.Some? ==>
        && 1 <= |paths.value| <= MAX_MANIFEST_PATHS
        && (batchIndex == 1 ==> SetOf(paths.value) <= ChangedPaths(PendingNow(None)))
    }

    /** The pending changes a manifest chooses from. */
    method OfferedChanges(batchIndex: int, paths: Option<seq<Path>>) returns (r: Result<seq<Change>, ManifestError>)
      ensures r.Ok? <==> ValidSelection(batchIndex, paths)
      ensures r.Ok? ==> r.value == PendingNow(SelectionOf(paths))
      ensures r == Err(InvalidSelection) <==> paths.Some? && (|paths.value| < 1 || |paths.value| > 10_000)
    {
      if paths.Some? && !(1 <= |paths.value| <= MAX_MANIFEST_PATHS) {
        return Err(InvalidSelection);
      }
      var changes := WorkspaceChanges(snapshot, Visible(work.files));
      var withheld := conflicts.Keys + neverPublish;
      var offered := Offered(changes, withheld, None);
      if paths == None {
        return Ok(offered);
      }
      var selection := SetOf(paths.value);
      if batchIndex == 1 && !(selection <= ChangedPaths(offered)) {
        return Err(UnknownSelection);
      }
      OfferedTwice(changes, withheld, selection);
      return Ok(Offered(offered, {}, Some(selection)));
    }

    /** The first batch of what is offered now, numbered `batchIndex`, or the reason there is none. */
    method NextManifest(batchIndex: int, paths: Option<seq<Path>>) returns (r: Result<Manifest, ManifestError>)
      ensures r.Ok? <==>
                && batchIndex >= 1
                && ValidSelection(batchIndex, paths)
                && var offered := PendingNow(SelectionOf(paths));
                   && (forall i :: 0 <= i < |offered| ==> !Oversize(offered[i]))
                   && BatchCount(batchIndex, |Greedy(offered)|) <= 2_000
      ensures r.Ok? ==> r.value == ManifestOf(workspace, snapshot.id, PendingNow(SelectionOf(paths)), work.files, batchIndex)
    {
      if batchIndex < 1 {
        return Err(InvalidBatchIndex);
      }
      var offered := OfferedChanges(batchIndex, paths);
      if offered.Err? {
        return Err(offered.error);
      }
      var batches := PublicationBatches(offered.value);
      if batches.Err? {
        return Err(FileTooLargeForBatch(batches.error.path));
      }
      var selected := if batches.value != [] then batches.value[0] else [];
      var count := BatchCount(batchIndex, |batches.value|);
      if count > MAX_PUBLISH_BATCHES {
        return Err(TooManyBatches);
      }
      return Ok(Manifest(workspace, snapshot.id, OperationsFor(selected, work.files), batchIndex, count));
    }

    /** What a receipt must fit: this workspace, the baseline in memory, and staging that still holds it. */
    ghost predicate Fits(receipt: Receipt)
      reads this, work
    {
      && receipt.workspace == workspace && receipt.source == snapshot.id
      && forall i :: 0 <= i < |receipt.operations| ==> StillStaged(Visible(work.files), receipt.operations[i])
    }

    /** Accept the receipt of a batch that reached the host. The baseline in memory moves first; when the state
        volume cannot be written the caller is told of an error and the disk keeps the old baseline. */
    method MarkPublished(receipt: Receipt, nextId: Id, saveFails: bool) returns (r: Result<Id, ReceiptError>)
      requires Keyed(conflicts)
      modifies this`snapshot, state`baseline
      ensures Keyed(conflicts)
      ensures r.Ok? <==> old(Fits(receipt)) && !saveFails
      ensures r == Err(NotSaved) <==> old(Fits(receipt)) && saveFails
      ensures old(Fits(receipt)) ==>
                Advanced(old(snapshot), Visible(work.files), Acknowledged(receipt.operations, |receipt.operations|), snapshot, nextId)
      ensures r.Ok? ==> Disk() == Some(Memory())
      ensures r.Err? ==> state.baseline == old(state.baseline)
      ensures !old(Fits(receipt)) ==> snapshot == old(snapshot)
    {
      if receipt.workspace != workspace {
        return Err(WrongWorkspace);
      }
      if receipt.source != snapshot.id {
        return Err(StaleReceipt);
      }
      var advanced := AdvancePublishedStaging(Visible(work.files), snapshot, receipt.operations, nextId);
      if advanced.Err? {
        return Err(StagingMoved(advanced.error));
      }
      snapshot := advanced.value;
      var ok := state.Save(Baseline(snapshot, conflicts), workspace, saveFails);
      if !ok {
        return Err(NotSaved);
      }
      return Ok(snapshot.id);
    }

    /** Drop every staged change and start over from the host; the process may stop on the way, and the new
        baseline may fail to be saved. */
    method Discard(host: Host, nextId: Id, stop: DiscardStop, saveFails: bool) returns (ok: bool)
      modifies this, work, state`baseline
      ensures stop == AfterClear ==> work.files == map[] && state.baseline == old(state.baseline) && Memory() == old(Memory())
      ensures stop == AfterForget ==> work.files == map[] && state.baseline == None && Memory() == old(Memory())
      ensures ok <==> stop == Finished && WithinStagingLimits(host, maxFiles, maxBytes) && !saveFails
      ensures stop == Finished && WithinStagingLimits(host, maxFiles, maxBytes) ==>
                && work.files == HostTree(host) && snapshot == SeedSnapshot(host, nextId) && conflicts == map[]
                && Disk() == if saveFails then None else Some(Memory())
      ensures stop == Finished && !WithinStagingLimits(host, maxFiles, maxBytes) ==>
                Memory() == old(Memory()) && Disk() == None
    {
      work.files := map[];
      if stop == AfterClear {
        return false;
      }
      state.ForgetBaseline();
      if stop == AfterForget {
        return false;
      }
      ok := Seed(host, nextId, saveFails);
    }
  }

  // ---- facts the methods rest on ----

  /** How a rebase ends: refused with nothing touched, stopped with staging partly installed, or gone through, with
      the new baseline saved unless there was nothing to save or the save failed. */
  ghost predicate RebaseOutcome(
    facing: Situation, nextId: Id, saveFails: bool, disk0: Option<Baseline>,
    r: Result<Report, RebaseFailure>, memory: Baseline, work: Tree, disk: Option<Baseline>)
  {
    if r.Err? && r.error.Stopped? then
      && memory == facing.baseline && disk == disk0
      && (if r.error.error.InstallFailed? then facing.WellFormed() && facing.PartlyInstalled(work) else work == facing.staged)
    else
      && facing.WellFormed() && (forall p :: p in facing.take ==> facing.Installable(p))
      && facing.Rebased(memory, work, if r.Ok? then r.value else r.error.report, nextId)
      && disk == (if SameBaseline(facing.baseline, memory) || saveFails then disk0 else Some(memory))
      && (r.Ok? <==> SameBaseline(facing.baseline, memory) || !saveFails)
  }

  /** How a start on the workspace's own volume ends: resumed from the disk by a rebase, or started over; or not up,
      with the disk unmoved and staging partly installed, or with no baseline at all. */
  ghost predicate StartOutcome(
    disk0: Option<Baseline>, workIsDirectory: bool, host: Host, staged: Tree, faults: set<Path>, nextId: Id,
    ok: bool, memory: Baseline, work: Tree, disk: Option<Baseline>)
  {
    if disk0.Some? && workIsDirectory then
      var facing := Facing(disk0.value, host, staged, {}, {}, faults);
      if ok then
        && (exists report :: facing.Rebased(memory, work, report, nextId))
        && disk == (if SameBaseline(disk0.value, memory) then disk0 else Some(memory))
      else disk == disk0 && facing.PartlyInstalled(work)
    else if ok then
      work == HostTree(host) && memory == Baseline(SeedSnapshot(host, nextId), map[]) && disk == Some(memory)
    else disk == None
  }

  /** A rebase that moved neither the snapshot id nor the open conflicts: nothing is written. */
  predicate SameBaseline(a: Baseline, b: Baseline) {
    a.snapshot.id == b.snapshot.id && a.conflicts == b.conflicts
  }

  lemma AllInstalledIsPartly(f: Situation, next: Baseline, files: Tree, report: Report, nextId: Id)
    requires f.Rebased(next, files, report, nextId)
    ensures f.PartlyInstalled(files)
  {
    forall p ensures Lookup(files, p) == Lookup(f.staged, p) || (f.Decide(p).install && Lookup(files, p) == f.After(p).file) {
      assert RowOf(next.snapshot, next.conflicts, files, p) == f.After(p);
    }
  }

  lemma RebasedIsKeyed(f: Situation, next: Baseline, files: Tree, report: Report, nextId: Id)
    requires f.Rebased(next, files, report, nextId)
    ensures Keyed(next.conflicts)
  {
    forall p | p in next.conflicts ensures next.conflicts[p].path == p {
      assert RowOf(next.snapshot, next.conflicts, files, p) == f.After(p);
    }
  }

  lemma QuietRebaseKeepsFiles(f: Situation, next: Baseline, files: Tree, report: Report, nextId: Id)
    requires f.Rebased(next, files, report, nextId)
    ensures report.absorbed == [] && report.resolved == [] ==>
              next.snapshot.files == f.baseline.snapshot.files && next.snapshot.id == f.baseline.snapshot.id
  {
    if report.absorbed == [] && report.resolved == [] {
      forall p ensures Lookup(next.snapshot.files, p) == Lookup(f.baseline.snapshot.files, p) {
        assert RowOf(next.snapshot, next.conflicts, files, p) == f.After(p);
        assert report.Lists(p, f.Decide(p).kind);
      }
      SameLookupsSameMap(next.snapshot.files, f.baseline.snapshot.files);
    }
  }

  lemma {:induction false} TableIsKeyed(items: seq<Conflict>)
    ensures Keyed(ConflictTable(items))
  {
    if items != [] {
      TableIsKeyed(items[..|items| - 1]);
    }
  }

  lemma DecodedIsKeyed(s: Option<Stored>)
    ensures Decode(s).Some? ==> Keyed(Decode(s).value.conflicts)
  {
    if Decode(s).Some? {
      TableIsKeyed(s.value.record.conflicts);
    }
  }

  /** Selecting from what is offered is offering what is selected. */
  lemma {:induction false} OfferedTwice(cs: seq<Change>, withheld: set<Path>, selection: set<Path>)
    ensures Offered(Offered(cs, withheld, None), {}, Some(selection)) == Offered(cs, withheld, Some(selection))
  {
    if cs != [] {
      var front, c := cs[..|cs| - 1], cs[|cs| - 1];
      OfferedTwice(front, withheld, selection);
      if c.path !in withheld {
        var kept := Offered(front, withheld, None);
        assert (kept + [c])[..|kept|] == kept;
      } else {
        assert Offered(front, withheld, None) + [] == Offered(front, withheld, None);
      }
    }
  }
}
