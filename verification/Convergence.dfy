/** Multi-batch publication: repeating manifest, publish, receipt and next batch converges. */
module Convergence {
  import opened Common
  import opened Paths
  import opened Staging
  import opened Drift
  import opened Publication
  import opened Broker
  import opened Service
  import opened PendingChanges
  import opened Worker

  ghost function FirstSize(cs: seq<Change>): (k: nat)
    ensures k <= |cs|
  {
    if cs == [] then 0 else Fit(cs, 0, 0)
  }

  /** The manifest offers exactly the first batch. */
  lemma ManifestIsFirstBatch(workspace: string, source: Id, cs: seq<Change>, t: Tree, batchIndex: nat)
    requires batchIndex >= 1
    ensures ManifestOf(workspace, source, cs, t, batchIndex).operations == OperationsFor(cs[..FirstSize(cs)], t)
  {
    assert cs == [] ==> cs[..0] == [];
  }

  ghost predicate NoneOversize(cs: seq<Change>) {
    forall i :: 0 <= i < |cs| ==> !Oversize(cs[i])
  }

  /** Host and baseline agree at the listed paths. */
  ghost predicate Agree(h: Host, s: Snapshot, ps: seq<Path>) {
    forall p :: p in ps ==> VersionOf(HostTree(h), p) == VersionIn(s.files, p)
  }

  /** With host and staging quiescent, the next batch is one the broker accepts and can carry out, and
      its receipt is one the executor accepts. */
  lemma NextBatchGoesThrough(
    s: Snapshot, t: Tree, h: Host, withheld: set<Path>, selection: Option<set<Path>>,
    workspace: string, never: set<Path>, batchIndex: nat, i: nat)
    requires never <= withheld && batchIndex >= 1
    requires var cs := Pending(s, Visible(t), withheld, selection); NoneOversize(cs) && Agree(h, s, PathsOf(cs))
    ensures var m := ManifestOf(workspace, s.id, Pending(s, Visible(t), withheld, selection), t, batchIndex);
            && Accepts(workspace, never, m, OperationPaths(m.operations))
            && (i < |m.operations| ==>
                  && m.operations[i].Valid()
                  && Ready(HostTree(h), m.operations[i])
                  && StillStaged(Visible(t), ReceiptFor(m).operations[i]))
  {
    var cs := Pending(s, Visible(t), withheld, selection);
    var k := FirstSize(cs);
    ManifestIsFirstBatch(workspace, s.id, cs, t, batchIndex);
    BatchPaths(s, t, withheld, selection, k);
    BatchPayload(s, t, withheld, selection, k);
    if cs != [] {
      FitIsMaximal(cs, 0, 0);
    }
    if i < k {
      BatchIsSound(s, t, withheld, selection, k, i);
      OperationMeaning(s, t, cs[i].path);
      assert PathsOf(cs)[i] == cs[i].path;
    }
  }

  /** Once it has landed, host and staging hold the same version at every path of the batch. */
  lemma LandedBatchAgrees(s: Snapshot, t: Tree, h: Host, withheld: set<Path>, selection: Option<set<Path>>, k: nat, p: Path)
    requires k <= |Pending(s, Visible(t), withheld, selection)|
    requires var ops := OperationsFor(Pending(s, Visible(t), withheld, selection)[..k], t);
             forall i :: 0 <= i < |ops| ==> Landed(HostTree(h), ops[i])
    requires p in PathsOf(Pending(s, Visible(t), withheld, selection)[..k])
    ensures VersionOf(HostTree(h), p) == VersionOf(t, p)
  {
    var cs := Pending(s, Visible(t), withheld, selection);
    var i :| 0 <= i < k && PathsOf(cs[..k])[i] == p;
    BatchIsSound(s, t, withheld, selection, k, i);
    OperationMeaning(s, t, cs[i].path);
  }

  /** Where a run stands after `n` of the pending changes were published. */
  ghost predicate Stands(s0: Snapshot, h0: Host, t: Tree, cs: seq<Change>, n: nat, s: Snapshot, h: Host)
    requires n <= |cs|
  {
    && MovedFor(s0, Visible(t), cs, n, s)
    && (forall p :: p in PathsOf(cs[..n]) ==> VersionOf(HostTree(h), p) == VersionOf(t, p))
    && (forall p :: p !in PathsOf(cs[..n]) ==> Lookup(h, p) == Lookup(h0, p))
  }

  lemma PathsExtend(cs: seq<Change>, n: nat, k: nat, p: Path)
    requires n + k <= |cs|
    ensures p in PathsOf(cs[..n + k]) <==> p in PathsOf(cs[..n]) || p in PathsOf(cs[n..][..k])
  {
    assert PathsOf(cs[..n + k]) == PathsOf(cs[..n]) + PathsOf(cs[n..][..k]);
  }

  lemma StandsStep(
    s0: Snapshot, h0: Host, t: Tree, withheld: set<Path>, selection: Option<set<Path>>, cs: seq<Change>, n: nat, k: nat,
    s: Snapshot, h: Host, s1: Snapshot, h1: Host, n1: nat)
    requires cs == Pending(s0, Visible(t), withheld, selection) && n1 == n + k <= |cs|
    requires var ops := OperationsFor(cs[n..][..k], t);
             && Stands(s0, h0, t, cs, n, s, h)
             && MovedFor(s, Visible(t), cs[n..], k, s1)
             && (forall i :: 0 <= i < |ops| ==> Landed(HostTree(h1), ops[i]))
             && (forall p :: p !in PathsOf(cs[n..][..k]) ==> Lookup(h1, p) == Lookup(h, p))
    ensures Stands(s0, h0, t, cs, n1, s1, h1)
  {
    AcknowledgedChangesLeave(s0, Visible(t), withheld, selection, n, s);
    forall p
      ensures Lookup(s1.files, p) == if p in PathsOf(cs[..n + k]) then Lookup(Visible(t), p) else Lookup(s0.files, p)
      ensures p in PathsOf(cs[..n + k]) ==> VersionOf(HostTree(h1), p) == VersionOf(t, p)
      ensures p !in PathsOf(cs[..n + k]) ==> Lookup(h1, p) == Lookup(h0, p)
    {
      PathsExtend(cs, n, k, p);
      assert Lookup(s.files, p) == if p in PathsOf(cs[..n]) then Lookup(Visible(t), p) else Lookup(s0.files, p);
      assert Lookup(s1.files, p) == if p in PathsOf(cs[n..][..k]) then Lookup(Visible(t), p) else Lookup(s.files, p);
      if p in PathsOf(cs[n..][..k]) {
        LandedBatchAgrees(s, t, h1, withheld, selection, k, p);
      } else if p in PathsOf(cs[..n]) {
        HostTreeLookup(h1, p);
        HostTreeLookup(h, p);
      }
    }
  }

  /** What is left to publish still agrees with the host. */
  lemma RestStillAgrees(s0: Snapshot, h0: Host, t: Tree, cs: seq<Change>, n: nat, s: Snapshot, h: Host)
    requires n <= |cs| && Ascending(PathsOf(cs))
    requires Stands(s0, h0, t, cs, n, s, h) && Agree(h0, s0, PathsOf(cs))
    ensures Agree(h, s, PathsOf(cs[n..]))
  {
    PathsSplit(cs, n);
    forall p | p in PathsOf(cs[n..]) ensures VersionOf(HostTree(h), p) == VersionIn(s.files, p) {
      var i :| 0 <= i < |cs[n..]| && PathsOf(cs[n..])[i] == p;
      assert PathsOf(cs)[n + i] == p;
      assert p in PathsOf(cs) && p !in PathsOf(cs[..n]);
      assert Lookup(h, p) == Lookup(h0, p);
      HostTreeLookup(h, p);
      HostTreeLookup(h0, p);
      SameFileSameVersion(HostTree(h), HostTree(h0), p);
      assert Lookup(s.files, p) == Lookup(s0.files, p);
      SameEntrySameVersion(s.files, s0.files, p);
    }
  }

  lemma SameFileSameVersion(a: Tree, b: Tree, p: Path)
    requires Lookup(a, p) == Lookup(b, p)
    ensures VersionOf(a, p) == VersionOf(b, p)
  {
  }

  lemma SameEntrySameVersion(a: Listing, b: Listing, p: Path)
    requires Lookup(a, p) == Lookup(b, p)
    ensures VersionIn(a, p) == VersionIn(b, p)
  {
  }

  /** The batch that was just acknowledged moved the baseline for exactly its paths. */
  lemma ReceiptMoves(s: Snapshot, t: Tree, withheld: set<Path>, selection: Option<set<Path>>, m: Manifest, next: Snapshot, nextId: Id)
    requires var cs := Pending(s, Visible(t), withheld, selection);
             && m.operations == OperationsFor(cs[..FirstSize(cs)], t)
             && Advanced(s, Visible(t), Acknowledged(ReceiptFor(m).operations, |m.operations|), next, nextId)
    ensures var cs := Pending(s, Visible(t), withheld, selection); MovedFor(s, Visible(t), cs, FirstSize(cs), next)
  {
    var cs := Pending(s, Visible(t), withheld, selection);
    ReceiptCoversManifest(m);
    BatchPaths(s, t, withheld, selection, FirstSize(cs));
    assert |ReceiptFor(m).operations| == |m.operations|;
  }

  lemma RemainingBatches(cs: seq<Change>, n: nat, bs: seq<seq<Change>>, d: nat)
    requires n < |cs| && d <= |bs| && Greedy(cs[n..]) == bs[d..]
    ensures d < |bs| && bs[d] == cs[n..][..FirstSize(cs[n..])]
    ensures 0 < FirstSize(cs[n..]) && n + FirstSize(cs[n..]) <= |cs|
    ensures Greedy(cs[n + FirstSize(cs[n..])..]) == bs[d + 1..]
    ensures cs[n..][FirstSize(cs[n..])..] == cs[n + FirstSize(cs[n..])..]
  {
    var k := FirstSize(cs[n..]);
    assert bs[d..] == [cs[n..][..k]] + Greedy(cs[n..][k..]);
    assert bs[d] == bs[d..][0] && bs[d + 1..] == bs[d..][1..];
    assert cs[n..][k..] == cs[n + k..];
  }

  /** What is left after `n` changes is the batches from the `d`-th on. */
  ghost predicate Remaining(cs: seq<Change>, n: nat, bs: seq<seq<Change>>, d: nat) {
    n <= |cs| && d <= |bs| && Greedy(cs[n..]) == bs[d..]
  }

  /** One multi-batch run: where it started, and the batches it is to publish. */
  datatype Run = Run(
    s0: Snapshot, h0: Host, t: Tree, withheld: set<Path>, selection: Option<set<Path>>, bs: seq<seq<Change>>)
  {
    ghost function Cs(): seq<Change> {
      Pending(s0, Visible(t), withheld, selection)
    }

    /** After `d` batches, carrying `n` changes in all, baseline and host are `s` and `h`. */
    ghost predicate At(n: nat, d: nat, s: Snapshot, h: Host) {
      && NoneOversize(Cs()) && Agree(h0, s0, PathsOf(Cs()))
      && n <= |Cs()| && Remaining(Cs(), n, bs, d)
      && Stands(s0, h0, t, Cs(), n, s, h)
    }
  }

  lemma RunMeaning(run: Run, n: nat, d: nat, s: Snapshot, h: Host)
    requires run.At(n, d, s, h)
    ensures Pending(s, Visible(run.t), run.withheld, run.selection) == run.Cs()[n..]
    ensures Agree(h, s, PathsOf(run.Cs()[n..])) && NoneOversize(run.Cs()[n..])
    ensures |Greedy(run.Cs()[n..])| == |run.bs| - d
    ensures n < |run.Cs()| <==> d < |run.bs|
  {
    var l, cs := Visible(run.t), run.Cs();
    AcknowledgedChangesLeave(run.s0, l, run.withheld, run.selection, n, s);
    PendingMeaning(run.s0, l, run.withheld, run.selection);
    RestStillAgrees(run.s0, run.h0, run.t, cs, n, s, h);
    assert forall i :: 0 <= i < |cs[n..]| ==> cs[n..][i] == cs[n + i];
    NothingLeft(cs[n..]);
  }

  lemma NothingLeft(cs: seq<Change>)
    ensures Greedy(cs) == [] <==> cs == []
  {
  }

  /** A batch reached the host and its receipt was accepted. */
  ghost predicate BatchDone(m: Manifest, t: Tree, s: Snapshot, h: Host, s1: Snapshot, h1: Host, nextId: Id) {
    && (forall i :: 0 <= i < |m.operations| ==> Landed(HostTree(h1), m.operations[i]))
    && (forall p :: p !in OperationPaths(m.operations) ==> Lookup(h1, p) == Lookup(h, p))
    && Advanced(s, Visible(t), Acknowledged(ReceiptFor(m).operations, |m.operations|), s1, nextId)
  }

  /** The broker accepts and can carry out the batch, and staging has not moved from it. */
  ghost predicate BatchSound(m: Manifest, t: Tree, s: Snapshot, h: Host, workspace: string, never: set<Path>) {
    && m.workspace == workspace && m.source == s.id
    && Accepts(workspace, never, m, OperationPaths(m.operations))
    && forall i :: 0 <= i < |m.operations| ==>
         && m.operations[i].Valid()
         && Ready(HostTree(h), m.operations[i])
         && StillStaged(Visible(t), ReceiptFor(m).operations[i])
  }

  /** The executor has another batch to offer after this one. */
  ghost predicate MoreToCome(m: Manifest, offered: seq<Change>) {
    && m.batchCount > 1 && m.HasMoreBatches()
    && offered != [] && NoneOversize(offered)
    && BatchCount(m.batchIndex + 1, |Greedy(offered)|) <= MAX_PUBLISH_BATCHES
  }

  /** A run of the worker without faults or lost receipts. */
  method RunWithoutFaults(
    service: ExecutorService, broker: WorkspaceBroker, ledger: PublicationLedger, m: Manifest, paths: Option<seq<Path>>,
    now: int, nextId: Id)
    returns (next: Option<Manifest>)
    requires service.Saved() && broker.identity == service.workspace
    requires paths.Some? ==> 1 <= |paths.value| <= MAX_MANIFEST_PATHS
    requires m.batchIndex >= 1
    requires BatchSound(m, service.work.files, service.snapshot, broker.host.files, service.workspace, broker.neverPublish)
    modifies service`snapshot, service.state`baseline, broker.host, ledger
    ensures service.Saved() && service.conflicts == old(service.conflicts)
    ensures BatchDone(m, service.work.files, old(service.snapshot), old(broker.host.files), service.snapshot, broker.host.files, nextId)
    ensures next.Some? <==> MoreToCome(m, service.PendingNow(SelectionOf(paths)))
    ensures next.Some? ==>
              next.value == ManifestOf(service.workspace, service.snapshot.id, service.PendingNow(SelectionOf(paths)),
                                       service.work.files, m.batchIndex + 1)
    ensures m.batchCount > 1 ==> LedgerKeeps(m, Published, old(ledger.batches), ledger.batches, ledger.published, ledger.remaining, ledger.state)
  {
    var r := RunPublication(service, broker, ledger, m, paths, UNTROUBLED, now, nextId);
    next := r.next;
  }

  /** The ledger lists the first `d` batches as published; once that is all of them, it says so. */
  ghost predicate LedgerAt(d: nat, count: nat, batches: map<nat, BatchStatus>, remaining: nat, state: LedgerState) {
    && (forall i :: 1 <= i <= d ==> Lookup(batches, i) == Some(Published))
    && (d > 0 && d == count ==> remaining == 0 && state == CompletedAll)
  }

  /** Recording the next batch as published keeps the ledger in step; after the last one nothing remains and the
      ledger reads "completed". */
  lemma LedgerStep(
    m: Manifest, d: nat, count: nat, before: map<nat, BatchStatus>, remaining0: nat, state0: LedgerState,
    batches: map<nat, BatchStatus>, published: set<nat>, remaining: nat, state: LedgerState)
    requires LedgerAt(d, count, before, remaining0, state0)
    requires m.batchIndex == d + 1 && m.batchCount == count
    requires LedgerKeeps(m, Published, before, batches, published, remaining, state)
    ensures LedgerAt(d + 1, count, batches, remaining, state)
  {
    forall i | 1 <= i <= d + 1 ensures i in published && Lookup(batches, i) == Some(Published) {
      assert i <= d ==> Lookup(before, i) == Some(Published);
    }
    forall i | i in UpTo(d + 1) ensures i in published {
      assert 1 <= i <= d + 1;
    }
    SubsetIsNotLarger(UpTo(d + 1), published);
  }

  /** Publishing and acknowledging the next batch moves the run on by exactly that batch. */
  lemma RunAdvances(
    run: Run, n: nat, d: nat, s: Snapshot, h: Host, workspace: string, m: Manifest, s1: Snapshot, h1: Host, nextId: Id,
    n1: nat, d1: nat)
    requires run.At(n, d, s, h)
    requires m.operations == OperationsFor(run.Cs()[n..][..FirstSize(run.Cs()[n..])], run.t)
    requires BatchDone(m, run.t, s, h, s1, h1, nextId)
    requires n1 == n + FirstSize(run.Cs()[n..]) && d1 == if d < |run.bs| then d + 1 else d
    ensures run.At(n1, d1, s1, h1)
  {
    var cs, k := run.Cs(), FirstSize(run.Cs()[n..]);
    AcknowledgedChangesLeave(run.s0, Visible(run.t), run.withheld, run.selection, n, s);
    BatchPaths(s, run.t, run.withheld, run.selection, k);
    ReceiptMoves(s, run.t, run.withheld, run.selection, m, s1, nextId);
    StandsStep(run.s0, run.h0, run.t, run.withheld, run.selection, cs, n, k, s, h, s1, h1, n1);
    RemainingStep(cs, n, run.bs, d, n1, d1);
  }

  lemma RemainingStep(cs: seq<Change>, n: nat, bs: seq<seq<Change>>, d: nat, n1: nat, d1: nat)
    requires Remaining(cs, n, bs, d)
    requires n <= |cs| && n1 == n + FirstSize(cs[n..]) && d1 == if d < |bs| then d + 1 else d
    ensures Remaining(cs, n1, bs, d1)
  {
    NothingLeft(cs[n..]);
    if n < |cs| {
      RemainingBatches(cs, n, bs, d);
    }
  }

  /** Whether the worker finds another batch. */
  lemma MoreWhileBatchesRemain(
    run: Run, n: nat, d: nat, s: Snapshot, h: Host, m: Manifest, d0: nat)
    requires run.At(n, d, s, h) && BatchCount(1, |run.bs|) <= MAX_PUBLISH_BATCHES
    requires d0 <= |run.bs| && m.batchIndex == d0 + 1 && m.batchCount == BatchCount(d0 + 1, |run.bs| - d0)
    requires d == if d0 < |run.bs| then d0 + 1 else d0
    ensures MoreToCome(m, run.Cs()[n..]) <==> d < |run.bs|
  {
    RunMeaning(run, n, d, s, h);
  }

  /** One approved batch: published, acknowledged, and the next one fetched. */
  method PublishNext(
    service: ExecutorService, broker: WorkspaceBroker, ledger: PublicationLedger, m: Manifest, paths: Option<seq<Path>>,
    now: int, nextId: Id, ghost run: Run, ghost n: nat, ghost d: nat)
    returns (next: Option<Manifest>, ghost n1: nat, ghost d1: nat)
    requires service.Saved()
    requires broker.identity == service.workspace && broker.neverPublish <= service.neverPublish
    requires paths.Some? ==> 1 <= |paths.value| <= MAX_MANIFEST_PATHS
    requires run.t == service.work.files && run.withheld == service.Withheld() && run.selection == SelectionOf(paths)
    requires run.At(n, d, service.snapshot, broker.host.files)
    requires BatchCount(1, |run.bs|) <= MAX_PUBLISH_BATCHES
    requires run.bs != [] ==> d < |run.bs|
    requires m == ManifestOf(service.workspace, service.snapshot.id, run.Cs()[n..], run.t, d + 1)
    modifies service`snapshot, service.state`baseline, broker.host, ledger
    ensures service.Saved() && service.conflicts == old(service.conflicts)
    ensures run.At(n1, d1, service.snapshot, broker.host.files)
    ensures d1 == if d < |run.bs| then d + 1 else d
    ensures next.Some? <==> d1 < |run.bs|
    ensures m.batchCount > 1 ==> LedgerKeeps(m, Published, old(ledger.batches), ledger.batches, ledger.published, ledger.remaining, ledger.state)
    ensures next.Some? ==> next.value == ManifestOf(service.workspace, service.snapshot.id, run.Cs()[n1..], run.t, d1 + 1)
  {
    ghost var s, h := service.snapshot, broker.host.files;
    RunMeaning(run, n, d, s, h);
    NextBatchIsSound(run, n, d, s, h, service.workspace, broker.neverPublish, m);
    ManifestIsFirstBatch(service.workspace, s.id, run.Cs()[n..], run.t, d + 1);
    next := RunWithoutFaults(service, broker, ledger, m, paths, now, nextId);
    n1, d1 := n + FirstSize(run.Cs()[n..]), if d < |run.bs| then d + 1 else d;
    RunAdvances(run, n, d, s, h, service.workspace, m, service.snapshot, broker.host.files, nextId, n1, d1);
    MoreWhileBatchesRemain(run, n1, d1, service.snapshot, broker.host.files, m, d);
    RunMeaning(run, n1, d1, service.snapshot, broker.host.files);
  }

  lemma NextBatchIsSound(
    run: Run, n: nat, d: nat, s: Snapshot, h: Host, workspace: string, never: set<Path>, m: Manifest)
    requires run.At(n, d, s, h) && never <= run.withheld
    requires m == ManifestOf(workspace, s.id, run.Cs()[n..], run.t, d + 1)
    ensures BatchSound(m, run.t, s, h, workspace, never)
  {
    RunMeaning(run, n, d, s, h);
    NextBatchGoesThrough(s, run.t, h, run.withheld, run.selection, workspace, never, d + 1, 0);
    forall i | 0 <= i < |m.operations|
      ensures m.operations[i].Valid() && Ready(HostTree(h), m.operations[i]) && StillStaged(Visible(run.t), ReceiptFor(m).operations[i])
    {
      NextBatchGoesThrough(s, run.t, h, run.withheld, run.selection, workspace, never, d + 1, i);
    }
  }

  /** From the first manifest on: publish, acknowledge, and go on while there is another batch. */
  method PublishBatches(
    service: ExecutorService, broker: WorkspaceBroker, ledger: PublicationLedger, paths: Option<seq<Path>>, now: int, firstId: Id,
    first: Manifest, ghost run: Run)
    returns (sent: seq<Manifest>, ghost n: nat)
    requires service.Saved()
    requires broker.identity == service.workspace && broker.neverPublish <= service.neverPublish
    requires paths.Some? ==> 1 <= |paths.value| <= MAX_MANIFEST_PATHS
    requires run.t == service.work.files && run.withheld == service.Withheld() && run.selection == SelectionOf(paths)
    requires run.At(0, 0, service.snapshot, broker.host.files) && BatchCount(1, |run.bs|) <= MAX_PUBLISH_BATCHES
    requires first == ManifestOf(service.workspace, service.snapshot.id, run.Cs()[0..], run.t, 1)
    modifies service`snapshot, service.state`baseline, broker.host, ledger
    ensures service.Saved() && service.conflicts == old(service.conflicts)
    ensures run.At(n, |run.bs|, service.snapshot, broker.host.files)
    ensures Announced(sent, run.bs, run.t) && |sent| == BatchCount(1, |run.bs|)
    ensures |sent| > 1 ==> LedgerAt(|sent|, |sent|, ledger.batches, ledger.remaining, ledger.state)
  {
    ghost var d: nat := 0;
    var next, id := Some(first), firstId;
    sent, n := [], 0;
    while next.Some?
      invariant service.Saved() && service.conflicts == old(service.conflicts)
      invariant run.At(n, d, service.snapshot, broker.host.files)
      invariant Announced(sent, run.bs, run.t)
      invariant next.Some? ==>
                  && |sent| == d && (run.bs != [] ==> d < |run.bs|)
                  && next.value == ManifestOf(service.workspace, service.snapshot.id, run.Cs()[n..], run.t, d + 1)
      invariant BatchCount(1, |run.bs|) > 1 ==> LedgerAt(d, |run.bs|, ledger.batches, ledger.remaining, ledger.state)
      invariant next == None ==> d == |run.bs| && |sent| == BatchCount(1, |run.bs|)
      decreases next.Some?, |run.bs| - d
    {
      var m := next.value;
      AnnouncedStep(sent, m, run.Cs(), run.bs, n, d, service.workspace, service.snapshot.id, run.t);
      ghost var batches, remaining, state := ledger.batches, ledger.remaining, ledger.state;
      ghost var d0 := d;
      next, n, d := PublishNext(service, broker, ledger, m, paths, now, id, run, n, d);
      if m.batchCount > 1 {
        LedgerStep(m, d0, |run.bs|, batches, remaining, state, ledger.batches, ledger.published, ledger.remaining, ledger.state);
      }
      sent, id := sent + [m], id + 1;
    }
  }

  /** Publish everything offered, batch after batch, with host and staging otherwise quiescent. It ends
      with nothing pending and with host, staging and baseline equal on exactly the published paths;
      every batch announces the same count, together the batches are the pending list, and the ledger of a
      publication of several batches ends with all of them published. */
  method PublishEverything(
    service: ExecutorService, broker: WorkspaceBroker, ledger: PublicationLedger, paths: Option<seq<Path>>, now: int, firstId: Id)
    returns (r: Result<seq<Manifest>, ManifestError>)
    requires service.Saved()
    requires broker.identity == service.workspace && broker.neverPublish <= service.neverPublish
    requires Agree(broker.host.files, service.snapshot, PathsOf(service.PendingNow(SelectionOf(paths))))
    modifies service`snapshot, service.state`baseline, broker.host, ledger
    ensures service.Saved() && service.conflicts == old(service.conflicts)
    ensures r.Ok? <==> old(
              && service.ValidSelection(1, paths)
              && NoneOversize(service.PendingNow(SelectionOf(paths)))
              && BatchCount(1, |Greedy(service.PendingNow(SelectionOf(paths)))|) <= MAX_PUBLISH_BATCHES)
    ensures r.Err? ==> service.snapshot == old(service.snapshot) && broker.host.files == old(broker.host.files)
    ensures r.Ok? ==>
              var cs := old(service.PendingNow(SelectionOf(paths)));
              && service.PendingNow(SelectionOf(paths)) == []
              && Stands(old(service.snapshot), old(broker.host.files), service.work.files, cs, |cs|, service.snapshot, broker.host.files)
              && Announced(r.value, Greedy(cs), service.work.files)
              && |r.value| == BatchCount(1, |Greedy(cs)|)
              && (|r.value| > 1 ==> LedgerAt(|r.value|, |r.value|, ledger.batches, ledger.remaining, ledger.state))
  {
    var first := service.NextManifest(1, paths);
    if first.Err? {
      return Err(first.error);
    }
    ghost var run := Run(
      service.snapshot, broker.host.files, service.work.files, service.Withheld(), SelectionOf(paths),
      Greedy(service.PendingNow(SelectionOf(paths))));
    RunStarts(run);
    ghost var n;
    var sent;
    sent, n := PublishBatches(service, broker, ledger, paths, now, firstId, first.value, run);
    RunMeaning(run, n, |run.bs|, service.snapshot, broker.host.files);
    return Ok(sent);
  }

  lemma RunStarts(run: Run)
    requires NoneOversize(run.Cs()) && Agree(run.h0, run.s0, PathsOf(run.Cs())) && run.bs == Greedy(run.Cs())
    ensures run.At(0, 0, run.s0, run.h0) && run.Cs()[0..] == run.Cs()
  {
    assert PathsOf(run.Cs()[..0]) == [];
    assert run.bs[0..] == run.bs;
  }

  /** The manifests sent so far carry the batches in order, and all announce the same number of batches. */
  ghost predicate Announced(sent: seq<Manifest>, bs: seq<seq<Change>>, t: Tree) {
    && |sent| <= BatchCount(1, |bs|)
    && forall i :: 0 <= i < |sent| ==>
         && sent[i].batchIndex == i + 1
         && sent[i].batchCount == BatchCount(1, |bs|)
         && sent[i].operations == OperationsFor(if bs == [] then [] else bs[i], t)
  }

  lemma AnnouncedStep(
    sent: seq<Manifest>, m: Manifest, cs: seq<Change>, bs: seq<seq<Change>>, n: nat, d: nat, workspace: string, source: Id, t: Tree)
    requires Announced(sent, bs, t) && |sent| == d
    requires Remaining(cs, n, bs, d) && (bs != [] ==> d < |bs|)
    requires m == ManifestOf(workspace, source, cs[n..], t, d + 1)
    ensures Announced(sent + [m], bs, t)
  {
    var left := Greedy(cs[n..]);
    assert left != [] ==> left[0] == bs[d];
    assert |left| == |bs| - d;
    assert m.operations == OperationsFor(if left == [] then [] else left[0], t);
    assert bs != [] ==> left != [];
  }

  /** Together the batches carry each pending change exactly once, in path order. */
  lemma EachChangeOnce(s: Snapshot, l: Listing, withheld: set<Path>, selection: Option<set<Path>>)
    requires NoneOversize(Pending(s, l, withheld, selection))
    ensures var cs := Pending(s, l, withheld, selection);
            && Flatten(Greedy(cs)) == cs
            && (forall i, j :: 0 <= i < j < |cs| ==> cs[i].path != cs[j].path)
            && forall p :: InScope(p, withheld, selection) && Differs(s, l, p) <==> p in PathsOf(cs)
  {
    var cs := Pending(s, l, withheld, selection);
    PendingMeaning(s, l, withheld, selection);
    GreedyIsPartition(cs);
    AscendingHasNoRepeats(PathsOf(cs));
    forall i, j | 0 <= i < j < |cs| ensures cs[i].path != cs[j].path {
      assert PathsOf(cs)[i] != PathsOf(cs)[j];
    }
    forall p ensures InScope(p, withheld, selection) && Differs(s, l, p) <==> p in PathsOf(cs) {
      PathListed(cs, p);
    }
  }
}
