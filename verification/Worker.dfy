/** The desktop worker that publishes one reviewed batch, acknowledges it, and fetches the next. */
module Worker {
  import opened Common
  import opened Paths
  import opened Staging
  import opened Drift
  import opened Publication
  import opened StateStore
  import opened Broker
  import opened Service
  import opened PendingChanges

  // ---- the operations of a manifest ----

  /** What one pending change asks of the host, when staging has not moved since it was listed. */
  lemma OperationMeaning(s: Snapshot, t: Tree, p: Path)
    requires Differs(s, Visible(t), p)
    ensures var op := OperationFor(ChangeAt(s, Visible(t), p), t);
            && op.path == p && op.Valid() && op.base == VersionIn(s.files, p)
            && op.operation == (if p !in t then Delete else if p !in s.files then Create else Update)
            && (p in t ==> op.content == Some(t[p].content) && op.stagedMode == Some(t[p].mode))
            && op.stagedDigest == (if p in t then Some(Sha256(t[p].content)) else None)
            && op.PayloadBytes() == ItemSize(ChangeAt(s, Visible(t), p))
            && (forall tree: Tree :: VersionOf(tree, p) == VersionIn(s.files, p) ==> Ready(tree, op))
            && (forall tree: Tree :: Landed(tree, op) ==> VersionOf(tree, p) == VersionOf(t, p))
            && StillStaged(Visible(t), PublishedOperation(p, op.operation, op.stagedDigest, op.stagedMode))
  {
  }

  lemma {:induction false} PayloadIsBytes(cs: seq<Change>, t: Tree)
    requires forall c :: c in cs ==> OperationFor(c, t).PayloadBytes() == ItemSize(c)
    ensures TotalPayload(OperationsFor(cs, t)) == BatchBytes(cs)
  {
    if cs != [] {
      assert OperationsFor(cs, t)[1..] == OperationsFor(cs[1..], t);
      assert cs[0] in cs;
      PayloadIsBytes(cs[1..], t);
    }
  }

  /** The first `k` pending changes, as manifest operations, are ones the broker accepts, are ready on a
      host that agrees with the baseline, and are acknowledged by staging that has not moved. */
  lemma BatchIsSound(s: Snapshot, t: Tree, withheld: set<Path>, selection: Option<set<Path>>, k: nat, i: nat)
    requires k <= |Pending(s, Visible(t), withheld, selection)| && i < k
    ensures var cs := Pending(s, Visible(t), withheld, selection);
            var op := OperationsFor(cs[..k], t)[i];
            && op == OperationFor(ChangeAt(s, Visible(t), cs[i].path), t)
            && Differs(s, Visible(t), cs[i].path)
            && op.path == cs[i].path && op.path !in withheld
  {
    var cs := Pending(s, Visible(t), withheld, selection);
    PendingMeaning(s, Visible(t), withheld, selection);
    assert cs[i] in cs;
    assert cs[..k][i] == cs[i];
    OperationMeaning(s, t, cs[i].path);
  }

  /** The operations of a manifest stand in the order of their paths, and none of the changes left for later batches
      comes before one of them. */
  lemma BatchInCodePointOrder(
    s: Snapshot, t: Tree, withheld: set<Path>, selection: Option<set<Path>>, workspace: string, batchIndex: nat, i: nat, j: nat)
    requires batchIndex >= 1
    requires var cs := Pending(s, Visible(t), withheld, selection);
             i < |ManifestOf(workspace, s.id, cs, t, batchIndex).operations| && i < j < |cs|
    ensures var cs := Pending(s, Visible(t), withheld, selection);
            var ops := ManifestOf(workspace, s.id, cs, t, batchIndex).operations;
            var a, b := ops[i].path.folded, if j < |ops| then ops[j].path.folded else cs[j].path.folded;
            a < b || exists k :: 0 <= k < |a| && k < |b| && a[..k] == b[..k] && a[k] < b[k]
  {
    var cs := Pending(s, Visible(t), withheld, selection);
    PendingInCodePointOrder(s, Visible(t), withheld, selection, i, j);
    var k := |ManifestOf(workspace, s.id, cs, t, batchIndex).operations|;
    assert Greedy(cs)[0] == cs[..k];
    BatchIsSound(s, t, withheld, selection, k, i);
    if j < k {
      BatchIsSound(s, t, withheld, selection, k, j);
    }
  }

  lemma BatchPaths(s: Snapshot, t: Tree, withheld: set<Path>, selection: Option<set<Path>>, k: nat)
    requires k <= |Pending(s, Visible(t), withheld, selection)|
    ensures var cs := Pending(s, Visible(t), withheld, selection);
            var ops := OperationsFor(cs[..k], t);
            && DistinctPaths(ops)
            && (forall p :: p in OperationPaths(ops) <==> p in PathsOf(cs[..k]))
            && OperationPaths(ops) !! withheld
  {
    var cs := Pending(s, Visible(t), withheld, selection);
    var ops := OperationsFor(cs[..k], t);
    PendingMeaning(s, Visible(t), withheld, selection);
    AscendingHasNoRepeats(PathsOf(cs));
    forall i | 0 <= i < k ensures ops[i].path == PathsOf(cs)[i] == PathsOf(cs[..k])[i] && ops[i].path !in withheld {
      BatchIsSound(s, t, withheld, selection, k, i);
    }
    forall p ensures p in OperationPaths(ops) <==> p in PathsOf(cs[..k]) {
      if p in PathsOf(cs[..k]) {
        var i :| 0 <= i < k && PathsOf(cs[..k])[i] == p;
        assert ops[i].path == p;
      }
    }
  }

  lemma BatchPayload(s: Snapshot, t: Tree, withheld: set<Path>, selection: Option<set<Path>>, k: nat)
    requires k <= |Pending(s, Visible(t), withheld, selection)|
    ensures var cs := Pending(s, Visible(t), withheld, selection);
            TotalPayload(OperationsFor(cs[..k], t)) == BatchBytes(cs[..k])
  {
    var cs := Pending(s, Visible(t), withheld, selection);
    PendingMeaning(s, Visible(t), withheld, selection);
    forall c | c in cs[..k] ensures OperationFor(c, t).PayloadBytes() == ItemSize(c) {
      assert c in cs;
      OperationMeaning(s, t, c.path);
    }
    PayloadIsBytes(cs[..k], t);
  }

  // ---- the ledger ----

  datatype BatchStatus = Published | FailedBatch | BaselineFailed

  datatype LedgerState = InProgress | CompletedAll | Stuck(status: BatchStatus)

  class PublicationLedger {
    var batches: map<nat, BatchStatus>
    var batchCount: nat
    var published: set<nat>
    var remaining: nat
    var state: LedgerState

    method Record(m: Manifest, status: BatchStatus)
      modifies this
      ensures batches == old(batches)[m.batchIndex := status]
      ensures published == (set i | i in batches && batches[i] == Published)
      ensures batchCount == m.batchCount
      ensures remaining == if |published| >= m.batchCount then 0 else m.batchCount - |published|
      ensures state == if status != Published then Stuck(status) else if m.HasMoreBatches() then InProgress else CompletedAll
    {
      batches := batches[m.batchIndex := status];
      published := set i | i in batches && batches[i] == Published;
      batchCount := m.batchCount;
      remaining := if |published| >= m.batchCount then 0 else m.batchCount - |published|;
      state := if status != Published then Stuck(status) else if m.HasMoreBatches() then InProgress else CompletedAll;
    }
  }

  /** What the ledger holds after recording one batch. */
  ghost predicate LedgerKeeps(
    m: Manifest, status: BatchStatus, before: map<nat, BatchStatus>, batches: map<nat, BatchStatus>, published: set<nat>,
    remaining: nat, state: LedgerState)
  {
    && batches == before[m.batchIndex := status]
    && (forall i :: i in published <==> i in batches && batches[i] == Published)
    && remaining == (if |published| >= m.batchCount then 0 else m.batchCount - |published|)
    && state == (if status != Published then Stuck(status) else if m.HasMoreBatches() then InProgress else CompletedAll)
  }

  /** The batches up to `d`. */
  function UpTo(d: nat): (s: set<nat>)
    ensures |s| == d && forall i :: i in s <==> 1 <= i <= d
  {
    if d == 0 then {} else UpTo(d - 1) + {d}
  }

  lemma {:induction false} SubsetIsNotLarger(a: set<nat>, b: set<nat>)
    requires a <= b
    ensures |a| <= |b| && (|a| == |b| ==> a == b)
  {
    if a != {} {
      var x :| x in a;
      SubsetIsNotLarger(a - {x}, b - {x});
    }
  }

  ghost predicate AllPublished(batches: map<nat, BatchStatus>, count: nat) {
    forall i: nat :: 1 <= i <= count ==> Lookup(batches, i) == Some(Published)
  }

  lemma CountIsAll(batches: map<nat, BatchStatus>, published: set<nat>, count: nat)
    requires forall i :: i in published <==> i in batches && batches[i] == Published
    requires forall i :: i in batches ==> 1 <= i <= count
    ensures |published| >= count <==> AllPublished(batches, count)
  {
    var all := UpTo(count);
    SubsetIsNotLarger(published, all);
    if AllPublished(batches, count) {
      forall i | i in all ensures i in published {
        assert Lookup(batches, i) == Some(Published);
      }
      SubsetIsNotLarger(all, published);
    }
  }

  /** The remaining count tells the truth about a publication; the state does so only for a publication whose batches
      went through in order: it reads "completed" with batches remaining exactly when the last batch was published
      while an earlier one was not. */
  lemma CompletedTooSoonIff(
    m: Manifest, status: BatchStatus, before: map<nat, BatchStatus>, batches: map<nat, BatchStatus>, published: set<nat>,
    remaining: nat, state: LedgerState)
    requires LedgerKeeps(m, status, before, batches, published, remaining, state)
    requires 1 <= m.batchIndex <= m.batchCount && forall i :: i in before ==> 1 <= i <= m.batchCount
    ensures remaining == 0 <==> AllPublished(batches, m.batchCount)
    ensures state == CompletedAll && remaining > 0 <==>
              status == Published && m.batchIndex == m.batchCount && !AllPublished(before, m.batchCount - 1)
  {
    CountIsAll(batches, published, m.batchCount);
    assert forall i :: 1 <= i < m.batchIndex ==> Lookup(batches, i) == Lookup(before, i);
    if status == Published && m.batchIndex == m.batchCount && AllPublished(before, m.batchCount - 1) {
      forall i: nat | 1 <= i <= m.batchCount ensures Lookup(batches, i) == Some(Published) {
        assert i < m.batchCount ==> Lookup(before, i) == Some(Published);
      }
    }
    if AllPublished(batches, m.batchCount) && m.batchIndex == m.batchCount {
      forall i: nat | 1 <= i <= m.batchCount - 1 ensures Lookup(before, i) == Some(Published) {
        assert Lookup(batches, i) == Some(Published);
      }
    }
  }

  /** Concretely: the first of two batches failed, the second was published. */
  lemma CompletedWithOneBatchMissing(m: Manifest)
    returns (before: map<nat, BatchStatus>, batches: map<nat, BatchStatus>, published: set<nat>, remaining: nat, state: LedgerState)
    requires m.batchIndex == m.batchCount == 2
    ensures before == map[1 := FailedBatch]
    ensures LedgerKeeps(m, Published, before, batches, published, remaining, state)
    ensures state == CompletedAll && remaining == 1
  {
    before := map[1 := FailedBatch];
    batches, published, remaining, state := before[2 := Published], {2}, 1, CompletedAll;
  }

  // ---- one run of the worker ----

  datatype WorkerResult =
    | PublicationFailed(error: PublishError)
    | PublicationDone(completed: seq<Path>, reseeded: bool, next: Option<Manifest>)

  lemma SomethingToPublish(workspace: string, source: Id, offered: seq<Change>, work: Tree, batchIndex: nat)
    requires batchIndex >= 1
    ensures ManifestOf(workspace, source, offered, work, batchIndex).operations == [] <==> offered == []
  {
  }

  /** The executor has another batch to offer after this one. */
  ghost predicate AnotherBatch(service: ExecutorService, m: Manifest, paths: Option<seq<Path>>)
    reads service, service.work
  {
    && m.HasMoreBatches()
    && service.ValidSelection(m.batchIndex + 1, paths)
    && var offered := service.PendingNow(SelectionOf(paths));
       && offered != []
       && (forall i :: 0 <= i < |offered| ==> !Oversize(offered[i]))
       && BatchCount(m.batchIndex + 1, |Greedy(offered)|) <= MAX_PUBLISH_BATCHES
  }

  /** The next batch, when the one before was acknowledged and more were announced. */
  method FetchNext(service: ExecutorService, m: Manifest, paths: Option<seq<Path>>) returns (next: Option<Manifest>)
    ensures next.Some? <==> AnotherBatch(service, m, paths)
    ensures next.Some? ==>
              next.value == ManifestOf(service.workspace, service.snapshot.id, service.PendingNow(SelectionOf(paths)),
                                       service.work.files, m.batchIndex + 1)
  {
    if !m.HasMoreBatches() {
      return None;
    }
    var following := service.NextManifest(m.batchIndex + 1, paths);
    SomethingToPublish(service.workspace, service.snapshot.id, service.PendingNow(SelectionOf(paths)), service.work.files, m.batchIndex + 1);
    if following.Ok? && following.value.operations != [] {
      return Some(following.value);
    }
    return None;
  }

  /** What may go wrong around one publication: host faults, required checks, the receipt on its way to the executor,
      the executor's state volume, the answer on its way back, the request for the next batch, the ledger. */
  datatype Circumstances = Circumstances(
    plan: Plan, checksPass: bool, receiptArrives: bool, saveFails: bool, answerArrives: bool, nextArrives: bool, ledgerFails: bool)

  const UNTROUBLED := Circumstances(NO_FAULTS, true, true, false, true, true, false)

  /** The executor took the receipt into memory. */
  predicate ReceiptTaken(done: bool, fits: bool, luck: Circumstances) {
    done && luck.receiptArrives && fits
  }

  /** The executor took the receipt and the worker knows. */
  predicate Confirmed(done: bool, fits: bool, luck: Circumstances) {
    ReceiptTaken(done, fits, luck) && !luck.saveFails && luck.answerArrives
  }

  /** `_record`: only publications of several batches are recorded, and a ledger that cannot be written is passed over. */
  method RecordBatch(ledger: PublicationLedger, m: Manifest, status: BatchStatus, fails: bool)
    modifies ledger
    ensures m.batchCount <= 1 || fails ==> ledger.batches == old(ledger.batches)
    ensures m.batchCount > 1 && !fails ==>
              LedgerKeeps(m, status, old(ledger.batches), ledger.batches, ledger.published, ledger.remaining, ledger.state)
  {
    if m.batchCount > 1 && !fails {
      ledger.Record(m, status);
    }
  }

  /** `PublicationWorker.run`: checks, then the host, then the receipt, then the ledger, then the next manifest. */
  method RunPublication(
    service: ExecutorService, broker: WorkspaceBroker, ledger: PublicationLedger,
    m: Manifest, paths: Option<seq<Path>>, luck: Circumstances, now: int, nextId: Id)
    returns (r: WorkerResult)
    requires Keyed(service.conflicts)
    requires forall i :: 0 <= i < |m.operations| ==> m.operations[i].Valid()
    modifies service`snapshot, service.state`baseline, broker.host, ledger
    ensures Keyed(service.conflicts)
    // the host
    ensures !luck.checksPass ==> r == PublicationFailed(Refused)
    ensures r.PublicationFailed? && r.error == Refused ==> broker.host.files == old(broker.host.files)
    ensures r.PublicationFailed? && r.error.Stopped? ==>
              forall p :: p !in r.error.unrestored ==>
                Lookup(HostTree(broker.host.files), p) == Lookup(HostTree(old(broker.host.files)), p)
    ensures r.PublicationDone? ==>
              forall i :: 0 <= i < |m.operations| ==>
                Ready(HostTree(old(broker.host.files)), m.operations[i]) && Landed(HostTree(broker.host.files), m.operations[i])
    ensures Reviewed(m.operations, old(broker.host.files), broker.host.files)
    ensures (&& Accepts(broker.identity, broker.neverPublish, m, OperationPaths(m.operations))
             && luck.checksPass && luck.plan == NO_FAULTS
             && (forall i :: 0 <= i < |m.operations| ==> Ready(HostTree(old(broker.host.files)), m.operations[i])))
            ==> r.PublicationDone?
    ensures r.PublicationDone? ==>
              |r.completed| == |m.operations| && forall i :: 0 <= i < |r.completed| ==> r.completed[i] == m.operations[i].path
    // the receipt
    ensures var accepted := ReceiptTaken(r.PublicationDone?, old(service.Fits(ReceiptFor(m))), luck);
            && (accepted ==> Advanced(old(service.snapshot), Visible(service.work.files),
                                      Acknowledged(ReceiptFor(m).operations, |m.operations|), service.snapshot, nextId))
            && (!accepted ==> service.snapshot == old(service.snapshot))
            && (r.PublicationDone? ==> (r.reseeded <==> Confirmed(true, old(service.Fits(ReceiptFor(m))), luck)))
            && (accepted && !luck.saveFails ==> service.Disk() == Some(service.Memory()))
            && (!(accepted && !luck.saveFails) ==> service.state.baseline == old(service.state.baseline))
    // the next batch
    ensures r.PublicationDone? && r.next.Some? ==>
              && r.reseeded
              && r.next.value == ManifestOf(service.workspace, service.snapshot.id, service.PendingNow(SelectionOf(paths)),
                                            service.work.files, m.batchIndex + 1)
    ensures r.PublicationDone? ==>
              (r.next.Some? <==> m.batchCount > 1 && r.reseeded && luck.nextArrives && AnotherBatch(service, m, paths))
    // the ledger
    ensures m.batchCount <= 1 || luck.ledgerFails ==> ledger.batches == old(ledger.batches)
    ensures m.batchCount > 1 && !luck.ledgerFails ==>
              LedgerKeeps(m, if r.PublicationFailed? then FailedBatch else if r.reseeded then Published else BaselineFailed,
                          old(ledger.batches), ledger.batches, ledger.published, ledger.remaining, ledger.state)
  {
    var published: Result<seq<Path>, PublishError> := Err(Refused);
    if luck.checksPass {
      published := broker.Publish(m, OperationPaths(m.operations), luck.plan, now);
    }
    if published.Err? {
      RecordBatch(ledger, m, FailedBatch, luck.ledgerFails);
      return PublicationFailed(published.error);
    }
    var reseeded := false;
    if luck.receiptArrives {
      var acknowledged := service.MarkPublished(ReceiptFor(m), nextId, luck.saveFails);
      reseeded := acknowledged.Ok? && luck.answerArrives;
    }
    RecordBatch(ledger, m, if reseeded then Published else BaselineFailed, luck.ledgerFails);
    var next := None;
    if m.batchCount > 1 && reseeded && luck.nextArrives {
      next := FetchNext(service, m, paths);
    }
    return PublicationDone(published.value, reseeded, next);
  }
}
