/** The executor, the broker and the worker at work on one host, step by step as the protocol describes them. */
module Driver {
  import opened Common
  import opened Paths
  import opened Staging
  import opened Drift
  import opened Seeding
  import opened Publication
  import opened StateStore
  import opened Broker
  import opened Service
  import opened Worker
  import opened Protocol

  function Elements<T>(xs: seq<T>): set<T> {
    set x | x in xs
  }

  lemma FacingIsWellFormed(b: Baseline, host: Host, work: Tree, faults: set<Path>)
    ensures Facing(b, host, work, {}, {}, faults).WellFormed()
  {
  }

  lemma OfferedOperationsAreValid(s: System, m: Manifest)
    requires Inv(s) && m in s.offered
    ensures forall i :: 0 <= i < |m.operations| ==> m.operations[i].Valid()
  {
    assert ManifestKept(s, m);
    forall i | 0 <= i < |m.operations| ensures m.operations[i].Valid() {
      assert BuiltOn(m.operations[i], s.history[m.source]);
    }
  }

  // ---- the steps, on values ----

  lemma Resumes(s: System, faults: set<Path>, report: Report, nextId: Id, work: Tree, base: Baseline)
    requires s.saved.Some? && nextId !in s.history
    requires Facing(s.saved.value, s.host, s.work, {}, {}, faults).Rebased(base, work, report, nextId)
    ensures Next(s, Restart(faults, report, nextId), AfterRebase(s, s.saved.value, work, base, true))
  {
    FacingIsWellFormed(s.saved.value, s.host, s.work, faults);
  }

  lemma StopsOnTheWay(s: System, faults: set<Path>, work: Tree)
    requires s.saved.Some?
    requires Facing(s.saved.value, s.host, s.work, {}, {}, faults).PartlyInstalled(work)
    ensures Next(s, RestartStopped(faults), s.(work := work, up := false))
  {
    FacingIsWellFormed(s.saved.value, s.host, s.work, faults);
  }

  /** A start is a restart or a reseeding, finished or stopped. */
  lemma StartIsAStep(s: System, workIsDirectory: bool, faults: set<Path>, nextId: Id, ok: bool, memory: Baseline, work: Tree, disk: Option<Baseline>)
    returns (e: Event, t: System)
    requires nextId !in s.history && (!workIsDirectory ==> s.work == map[])
    requires StartOutcome(s.saved, workIsDirectory, s.host, s.work, faults, nextId, ok, memory, work, disk)
    ensures Next(s, e, t) && t.host == s.host && t.work == work && t.saved == disk && t.up == ok && (ok ==> t.base == memory)
    ensures if ok then (e.Restart? && e.faults == faults && e.nextId == nextId) || e == Reseed(nextId)
            else e == RestartStopped(faults) || e == ReseedStopped
  {
    if s.saved.Some? && workIsDirectory {
      if ok {
        var report :| Facing(s.saved.value, s.host, s.work, {}, {}, faults).Rebased(memory, work, report, nextId);
        Resumes(s, faults, report, nextId, work, memory);
        return Restart(faults, report, nextId), AfterRebase(s, s.saved.value, work, memory, true);
      }
      StopsOnTheWay(s, faults, work);
      return RestartStopped(faults), s.(work := work, up := false);
    }
    if ok {
      return Reseed(nextId), AfterSeed(s, nextId, true);
    }
    return ReseedStopped, s.(work := work, saved := None, up := false);
  }

  /** A rebase is one that went through, one that stopped, or none. */
  lemma RebaseIsAStep(
    s: System, f: Situation, nextId: Id, saveFails: bool, r: Result<Report, RebaseFailure>, memory: Baseline, work: Tree, disk: Option<Baseline>)
    returns (e: Event, t: System)
    requires s.up && nextId !in s.history && f == Facing(s.base, s.host, s.work, f.keep, f.take, f.faults)
    requires RebaseOutcome(f, nextId, saveFails, s.saved, r, memory, work, disk)
    ensures t == s || Next(s, e, t)
    ensures t.host == s.host && t.work == work && t.saved == disk && t.up && t.base == memory
    ensures if r.Ok? then e == RebaseDone(f.keep, f.take, f.faults, r.value, nextId, !saveFails) && Next(s, e, t)
            else if r.error.ReportNotSaved? then e == RebaseDone(f.keep, f.take, f.faults, r.error.report, nextId, false) && Next(s, e, t)
            else e == RebaseStopped(f.keep, f.take, f.faults, true)
  {
    if r.Err? && r.error.Stopped? {
      return RebaseStopped(f.keep, f.take, f.faults, true), s.(work := work);
    }
    e := RebaseDone(f.keep, f.take, f.faults, if r.Ok? then r.value else r.error.report, nextId, !saveFails);
    t := AfterRebase(s, s.base, work, memory, !saveFails);
  }

  /** A discard is done, with its baseline saved or not, or stopped. */
  lemma DiscardIsAStep(
    s: System, nextId: Id, stop: DiscardStop, saveFails: bool, fits: bool, memory: Baseline, work: Tree, disk: Option<Baseline>)
    returns (e: Event, t: System)
    requires s.up && nextId !in s.history
    requires stop == Finished && fits ==>
               && work == HostTree(s.host) && memory == Baseline(SeedSnapshot(s.host, nextId), map[])
               && disk == if saveFails then None else Some(memory)
    requires !(stop == Finished && fits) ==> memory == s.base && disk == if stop == AfterClear then s.saved else None
    ensures Next(s, e, t) && t.host == s.host && t.work == work && t.saved == disk && (t.up ==> t.base == memory)
    ensures e == if stop == Finished && fits then DiscardDone(nextId, !saveFails) else DiscardStopped(stop != AfterClear, stop == Finished)
  {
    if stop == Finished && fits {
      return DiscardDone(nextId, !saveFails), AfterSeed(s, nextId, !saveFails);
    }
    return DiscardStopped(stop != AfterClear, stop == Finished), s.(work := work, saved := disk, up := stop == Finished);
  }

  /** A receipt is accepted, saved or not, or refused. */
  lemma ReceiptIsAStep(s: System, m: Manifest, nextId: Id, accepted: bool, kept: bool, memory: Baseline, disk: Option<Baseline>)
    returns (e: Event, t: System)
    requires s.up && m in s.sent && nextId !in s.history && memory.conflicts == s.base.conflicts
    requires accepted ==>
               && m.source == s.base.snapshot.id
               && (forall i :: 0 <= i < |m.operations| ==> StillStaged(Visible(s.work), ReceiptFor(m).operations[i]))
               && Advanced(s.base.snapshot, Visible(s.work), Acknowledged(ReceiptFor(m).operations, |m.operations|), memory.snapshot, nextId)
    requires !accepted ==> memory == s.base
    requires disk == if accepted && kept then Some(memory) else s.saved
    ensures Next(s, e, t) && t.host == s.host && t.work == s.work && t.saved == disk && t.up && t.base == memory
    ensures e == if accepted then ReceiptAccepted(m, nextId, kept) else ReceiptRefused(m)
  {
    if accepted {
      return ReceiptAccepted(m, nextId, kept), AfterReceipt(s, m, memory.snapshot, kept);
    }
    return ReceiptRefused(m), s;
  }

  /** A publication goes through or fails. */
  lemma PublicationIsAStep(s: System, m: Manifest, done: bool, unrestored: set<Path>, host: Host) returns (e: Event, t: System)
    requires m in s.offered && Reviewed(m.operations, s.host, host)
    requires done ==> forall i :: 0 <= i < |m.operations| ==> Ready(HostTree(s.host), m.operations[i]) && Landed(HostTree(host), m.operations[i])
    requires !done ==> forall p :: p !in unrestored ==> Lookup(HostTree(host), p) == Lookup(HostTree(s.host), p)
    ensures Next(s, e, t) && t == s.(host := host, sent := t.sent, edited := t.edited, awaiting := t.awaiting)
    ensures e == if done then Publish(m) else PublishFailed(m, unrestored)
    ensures done ==> m in t.sent
  {
    if done {
      return Publish(m), AfterPublish(s, m, host);
    }
    return PublishFailed(m, unrestored), AfterOthersWrote(s, unrestored, host);
  }

  /** An offered manifest is an offer. */
  lemma OfferIsAStep(s: System, m: Manifest, selection: Option<set<Path>>, never: set<Path>) returns (t: System)
    requires s.up && m.batchIndex >= 1
    requires m == ManifestOf(m.workspace, s.base.snapshot.id,
                             Pending(s.base.snapshot, Visible(s.work), s.base.conflicts.Keys + never, selection), s.work, m.batchIndex)
    ensures Next(s, Event.Offer(m, selection, never), t) && t == s.(offered := t.offered)
  {
    t := s.(offered := s.offered + {m});
  }

  /** What a run of the worker does to host, memory and disk. */
  ghost predicate Worked(
    s: System, m: Manifest, done: bool, unrestored: set<Path>, host: Host, accepted: bool, kept: bool, nextId: Id,
    memory: Baseline, disk: Option<Baseline>)
  {
    && Reviewed(m.operations, s.host, host)
    && (done ==> forall i :: 0 <= i < |m.operations| ==> Ready(HostTree(s.host), m.operations[i]) && Landed(HostTree(host), m.operations[i]))
    && (!done ==> forall p :: p !in unrestored ==> Lookup(HostTree(host), p) == Lookup(HostTree(s.host), p))
    && memory.conflicts == s.base.conflicts && (accepted ==> done)
    && (accepted ==>
          && m.source == s.base.snapshot.id
          && (forall i :: 0 <= i < |m.operations| ==> StillStaged(Visible(s.work), ReceiptFor(m).operations[i]))
          && Advanced(s.base.snapshot, Visible(s.work), Acknowledged(ReceiptFor(m).operations, |m.operations|), memory.snapshot, nextId))
    && (!accepted ==> memory == s.base)
    && disk == if accepted && kept then Some(memory) else s.saved
  }

  /** A run of the worker is a publication and then a receipt. */
  lemma WorkerIsTwoSteps(
    s: System, m: Manifest, done: bool, unrestored: set<Path>, host: Host, accepted: bool, kept: bool, nextId: Id,
    memory: Baseline, disk: Option<Baseline>)
    returns (e: Event, mid: System, next: Event, after: System)
    requires Inv(s) && s.up && m in s.offered && nextId !in s.history
    requires Worked(s, m, done, unrestored, host, accepted, kept, nextId, memory, disk)
    ensures Next(s, e, mid) && Next(mid, next, after)
    ensures after.host == host && after.work == s.work && after.saved == disk && after.up && after.base == memory
    ensures e == if done then Publish(m) else PublishFailed(m, unrestored)
    ensures next == if accepted then ReceiptAccepted(m, nextId, kept) else ReceiptRefused(m)
    ensures after.base.snapshot.id != s.base.snapshot.id <==> accepted
  {
    assert Recorded(s, s.base);
    e, mid := PublicationIsAStep(s, m, done, unrestored, host);
    if done {
      next, after := ReceiptIsAStep(mid, m, nextId, accepted, kept, memory, disk);
    } else {
      next, after := ReceiptRefused(m), mid;
    }
  }

  /** What the worker's result tells of the two steps. What it says, and with it the ledger, is wrong in one direction
      only: it says that the baseline did not advance although it did, exactly when the receipt fitted and the save or
      the answer failed. */
  ghost predicate Reports(r: WorkerResult, m: Manifest, nextId: Id, fits: bool, luck: Circumstances, e: Event, next: Event) {
    && (r.PublicationFailed? ==> e.PublishFailed? && e.m == m && next == ReceiptRefused(m))
    && (r.PublicationDone? ==>
          && e == Publish(m)
          && next == (if ReceiptTaken(true, fits, luck) then ReceiptAccepted(m, nextId, !luck.saveFails) else ReceiptRefused(m))
          && (r.reseeded ==> next == ReceiptAccepted(m, nextId, true))
          && (!r.reseeded && next.ReceiptAccepted? <==> ReceiptTaken(true, fits, luck) && (luck.saveFails || !luck.answerArrives)))
  }

  lemma WorkerReports(r: WorkerResult, m: Manifest, nextId: Id, fits: bool, luck: Circumstances, e: Event, next: Event)
    requires r.PublicationDone? ==> (r.reseeded <==> Confirmed(true, fits, luck))
    requires if r.PublicationDone? then e == Publish(m) else e.PublishFailed? && e.m == m
    requires next == if ReceiptTaken(r.PublicationDone?, fits, luck) then ReceiptAccepted(m, nextId, !luck.saveFails) else ReceiptRefused(m)
    ensures Reports(r, m, nextId, fits, luck, e, next)
  {
  }

  class Workstation {
    const service: ExecutorService
    const broker: WorkspaceBroker
    const ledger: PublicationLedger
    /** Where the run stands, in the protocol's terms. */
    ghost var sys: System

    constructor (service: ExecutorService, broker: WorkspaceBroker, ledger: PublicationLedger, ghost start: System)
      requires start.up && start.host == broker.host.files && start.work == service.work.files
      requires start.base == service.Memory() && start.saved == service.Disk() && Keyed(service.conflicts)
      requires service.state.identity == Some(Owner(service.workspace))
      ensures Coupled() && sys == start
      ensures this.service == service && this.broker == broker && this.ledger == ledger
    {
      this.service, this.broker, this.ledger, sys := service, broker, ledger, start;
    }

    /** The protocol's state is the state of the objects; of memory only while the executor runs. Every method keeps
        it and takes one step of the protocol, or two, so what is proved of all runs holds of the objects. */
    ghost predicate Coupled()
      reads this, service, service.work, service.state, broker.host
    {
      && sys.host == broker.host.files && sys.work == service.work.files && sys.saved == service.Disk()
      && (sys.up ==> sys.base == service.Memory() && Keyed(service.conflicts))
      && service.state.identity == Some(Owner(service.workspace))
    }

    /** The user writes or removes a file. */
    method EditHost(p: Path, f: Option<HostFile>)
      requires Coupled()
      modifies this`sys, broker.host
      ensures Coupled() && Next(old(sys), HostEdit(p), sys)
      ensures Lookup(broker.host.files, p) == f && forall q :: q != p ==> Lookup(broker.host.files, q) == Lookup(old(broker.host.files), q)
    {
      ghost var s := sys;
      broker.host.files := Put(broker.host.files, p, f);
      PutThenLookup(s.host, p, f);
      sys := AfterOthersWrote(s, {p}, broker.host.files);
    }

    /** The agent leaves staging as it likes. */
    method EditStaging(files: Tree)
      requires Coupled()
      modifies this`sys, service.work
      ensures Coupled() && Next(old(sys), StageEdit, sys) && service.work.files == files
    {
      ghost var s := sys;
      service.work.files := files;
      sys := s.(work := files);
    }

    method Offer(batchIndex: int, paths: Option<seq<Path>>) returns (r: Result<Manifest, ManifestError>)
      requires Coupled() && sys.up
      modifies this`sys
      ensures Coupled()
      ensures r.Ok? ==> Next(old(sys), Event.Offer(r.value, SelectionOf(paths), service.neverPublish), sys)
      ensures r.Err? ==> sys == old(sys)
    {
      r := service.NextManifest(batchIndex, paths);
      if r.Ok? {
        sys := OfferIsAStep(sys, r.value, SelectionOf(paths), service.neverPublish);
      }
    }

    /** The run of the worker itself. */
    method Work(m: Manifest, paths: Option<seq<Path>>, luck: Circumstances, now: int, nextId: Id)
      returns (r: WorkerResult, ghost unrestored: set<Path>)
      requires Coupled() && Inv(sys) && sys.up && m in sys.offered
      modifies service`snapshot, service.state`baseline, broker.host, ledger
      ensures var done, fits := r.PublicationDone?, old(service.Fits(ReceiptFor(m)));
              Worked(sys, m, done, unrestored, broker.host.files, ReceiptTaken(done, fits, luck), !luck.saveFails, nextId,
                     service.Memory(), service.Disk())
      ensures r.PublicationDone? ==> (r.reseeded <==> Confirmed(true, old(service.Fits(ReceiptFor(m))), luck))
      ensures r.PublicationDone? && r.next.Some? ==>
                && m.batchIndex >= 0
                && r.next.value == ManifestOf(service.workspace, service.snapshot.id, service.PendingNow(SelectionOf(paths)),
                                              service.work.files, m.batchIndex + 1)
    {
      OfferedOperationsAreValid(sys, m);
      r := RunPublication(service, broker, ledger, m, paths, luck, now, nextId);
      unrestored := if r.PublicationDone? || r.error == Refused then {} else Elements(r.error.unrestored);
    }

    /** The run of the worker in the protocol's terms, up to the next batch. */
    method PublishAndAcknowledge(m: Manifest, paths: Option<seq<Path>>, luck: Circumstances, now: int, nextId: Id)
      returns (r: WorkerResult, ghost mid: System, ghost e: Event, ghost next: Event)
      requires Coupled() && Inv(sys) && sys.up && m in sys.offered && nextId !in sys.history
      modifies this`sys, service`snapshot, service.state`baseline, broker.host, ledger
      ensures Coupled() && sys.up
      ensures Next(old(sys), e, mid) && Next(mid, next, sys)
      ensures Reports(r, m, nextId, old(service.Fits(ReceiptFor(m))), luck, e, next)
      ensures sys.base.snapshot.id != old(sys.base.snapshot.id) <==> next.ReceiptAccepted?
      ensures r.PublicationDone? && r.next.Some? ==>
                && m.batchIndex >= 0
                && r.next.value == ManifestOf(service.workspace, service.snapshot.id, service.PendingNow(SelectionOf(paths)),
                                              service.work.files, m.batchIndex + 1)
    {
      ghost var fits, unrestored := service.Fits(ReceiptFor(m)), {};
      r, unrestored := Work(m, paths, luck, now, nextId);
      ghost var done := r.PublicationDone?;
      e, mid, next, sys := WorkerIsTwoSteps(
        sys, m, done, unrestored, broker.host.files, ReceiptTaken(done, fits, luck), !luck.saveFails, nextId,
        service.Memory(), service.Disk());
      WorkerReports(r, m, nextId, fits, luck, e, next);
    }

    /** One run of the publication worker is a publication or a failed one, then at most one receipt, then at most one
        offer. */
    method RunWorker(m: Manifest, paths: Option<seq<Path>>, luck: Circumstances, now: int, nextId: Id)
      returns (r: WorkerResult, ghost mid: System, ghost after: System, ghost e: Event, ghost next: Event)
      requires Coupled() && Inv(sys) && sys.up && m in sys.offered && nextId !in sys.history
      modifies this`sys, service`snapshot, service.state`baseline, broker.host, ledger
      ensures Coupled()
      ensures Next(old(sys), e, mid) && Next(mid, next, after)
      ensures if r.PublicationDone? && r.next.Some?
              then Next(after, Event.Offer(r.next.value, SelectionOf(paths), service.neverPublish), sys)
              else sys == after
      ensures Reports(r, m, nextId, old(service.Fits(ReceiptFor(m))), luck, e, next)
      ensures after.base.snapshot.id != old(sys.base.snapshot.id) <==> next.ReceiptAccepted?
    {
      r, mid, e, next := PublishAndAcknowledge(m, paths, luck, now, nextId);
      after := sys;
      if r.PublicationDone? && r.next.Some? {
        sys := OfferIsAStep(sys, r.next.value, SelectionOf(paths), service.neverPublish);
      }
    }

    /** A receipt that arrives late, or again. */
    method Acknowledge(m: Manifest, nextId: Id, saveFails: bool) returns (r: Result<Id, ReceiptError>, ghost e: Event)
      requires Coupled() && sys.up && m in sys.sent && nextId !in sys.history
      modifies this`sys, service`snapshot, service.state`baseline
      ensures Coupled() && Next(old(sys), e, sys)
      ensures e == if r.Ok? || r == Err(NotSaved) then ReceiptAccepted(m, nextId, r.Ok?) else ReceiptRefused(m)
    {
      ghost var fits := service.Fits(ReceiptFor(m));
      r := service.MarkPublished(ReceiptFor(m), nextId, saveFails);
      e, sys := ReceiptIsAStep(sys, m, nextId, fits, r.Ok?, service.Memory(), service.Disk());
    }

    /** A rebase goes through, stops part way, or is refused before it touches anything. */
    method Rebase(keep: set<Path>, take: set<Path>, faults: set<Path>, nextId: Id, saveFails: bool)
      returns (r: Result<Report, RebaseFailure>, ghost e: Event)
      requires Coupled() && sys.up && nextId !in sys.history
      modifies this`sys, service, service.work, service.state`baseline
      ensures Coupled()
      ensures sys == old(sys) || Next(old(sys), e, sys)
      ensures r.Ok? ==> e == RebaseDone(keep, take, faults, r.value, nextId, !saveFails) && Next(old(sys), e, sys)
      ensures r.Err? && r.error.ReportNotSaved? ==> e == RebaseDone(keep, take, faults, r.error.report, nextId, false) && Next(old(sys), e, sys)
      ensures r.Err? && r.error.Stopped? ==> e == RebaseStopped(keep, take, faults, true)
    {
      ghost var s := sys;
      r := service.RebaseNow(broker.host.files, keep, take, faults, nextId, saveFails);
      e, sys := RebaseIsAStep(s, Facing(s.base, s.host, s.work, keep, take, faults), nextId, saveFails, r,
                              service.Memory(), service.work.files, service.Disk());
    }

    method Discard(nextId: Id, stop: DiscardStop, saveFails: bool) returns (ok: bool, ghost e: Event)
      requires Coupled() && sys.up && nextId !in sys.history
      modifies this`sys, service, service.work, service.state`baseline
      ensures Coupled()
      ensures Next(old(sys), e, sys)
      ensures e == DiscardDone(nextId, !saveFails) || e == DiscardStopped(stop != AfterClear, stop == Finished)
      ensures ok ==> stop == Finished && e == DiscardDone(nextId, true)
    {
      ghost var fits := WithinStagingLimits(broker.host.files, service.maxFiles, service.maxBytes);
      ok := service.Discard(broker.host.files, nextId, stop, saveFails);
      e, sys := DiscardIsAStep(sys, nextId, stop, saveFails, fits, service.Memory(), service.work.files, service.Disk());
    }

    /** The process stops, wherever it was, and another one comes up or fails to. */
    method Restart(workIsDirectory: bool, faults: set<Path>, nextId: Id, saveFails: bool) returns (ok: bool, ghost e: Event)
      requires Coupled() && nextId !in sys.history && (!workIsDirectory ==> service.work.files == map[])
      modifies this`sys, service, service.work, service.state
      ensures Coupled() && sys.up == ok
      ensures Next(old(sys), e, sys)
      ensures ok ==> (e.Restart? && e.faults == faults && e.nextId == nextId) || e == Reseed(nextId)
      ensures !ok ==> e == RestartStopped(faults) || e == ReseedStopped
    {
      ghost var s := sys;
      ok := service.Start(broker.host.files, workIsDirectory, faults, nextId, saveFails);
      e, sys := StartIsAStep(s, workIsDirectory, faults, nextId, ok, service.Memory(), service.work.files, service.Disk());
    }
  }
}
