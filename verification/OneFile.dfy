/** Runs over a workspace of one file, up to the moment its first change is published. */
module OneFile {
  import opened Common
  import opened Paths
  import opened Staging
  import opened Drift
  import opened Seeding
  import opened Publication
  import opened Broker
  import opened Service
  import opened PendingChanges
  import opened Protocol

  // ---- its manifest ----

  lemma OnePendingChange(s: Snapshot, l: Listing, p: Path)
    requires forall q :: Differs(s, l, q) <==> q == p
    ensures Pending(s, l, {}, None) == [ChangeAt(s, l, p)]
  {
    var cs := Pending(s, l, {}, None);
    PendingMeaning(s, l, {}, None);
    var c := ChangeAt(s, l, p);
    assert c in cs;
    assert PathsOf([c]) == [p];
    forall q ensures q in PathsOf(cs) <==> q in [p] {
      PathListed(cs, q);
    }
    AscendingIsUnique(PathsOf(cs), [p]);
    ChangesFromPaths(s, l, cs, [c]);
  }

  lemma OneChangeOneBatch(c: Change)
    ensures Greedy([c]) == [[c]]
  {
    assert [c][..1] == [c] && [c][1..] == [];
  }

  /** The manifest for one updated file. */
  lemma ManifestForOne(s: Snapshot, t: Tree, p: Path)
    requires forall q :: Differs(s, Visible(t), q) <==> q == p
    ensures var m := ManifestOf("", s.id, Pending(s, Visible(t), {}, None), t, 1);
            m == Manifest("", s.id, [OperationFor(ChangeAt(s, Visible(t), p), t)], 1, 1)
  {
    OnePendingChange(s, Visible(t), p);
    OneChangeOneBatch(ChangeAt(s, Visible(t), p));
  }

  ghost function TheManifest(p: Path, v0: File, v1: File): Manifest {
    ManifestOf("", 0, Pending(SeedSnapshot(HostOf(p, v0, 0), 0), Visible(map[p := v1]), {}, None), map[p := v1], 1)
  }

  function TheOperation(p: Path, v0: File, v1: File): PublishOperation {
    PublishOperation(p, Update, Some(VersionOfEntry(EntryOf(v0))), Some(Sha256(v1.content)), Some(v1.mode), Some(v1.content))
  }

  lemma ManifestShape(p: Path, v0: File, v1: File)
    requires v0.content != v1.content
    ensures TheManifest(p, v0, v1) == Manifest("", 0, [TheOperation(p, v0, v1)], 1, 1)
    ensures OperationPaths([TheOperation(p, v0, v1)]) == {p}
  {
    assert EntryOf(v0).digest != EntryOf(v1).digest;
    ManifestForOne(SeedSnapshot(HostOf(p, v0, 0), 0), map[p := v1], p);
    assert [TheOperation(p, v0, v1)][0].path == p;
  }

  // ---- its first four states ----

  function HostOf(p: Path, f: File, time: int): Host {
    map[p := HostFile(f, time)]
  }

  ghost function Seeded(p: Path, v0: File): System {
    var base := Baseline(SeedSnapshot(HostOf(p, v0, 0), 0), map[]);
    System(HostOf(p, v0, 0), map[p := v0], base, Some(base), true, {}, map[0 := base.snapshot.files], map[], {}, {}, {}, {})
  }

  ghost function Staged(p: Path, v0: File, v1: File): System {
    Seeded(p, v0).(work := map[p := v1])
  }

  ghost function OfferedOnce(p: Path, v0: File, v1: File): System {
    Staged(p, v0, v1).(offered := {TheManifest(p, v0, v1)})
  }

  ghost function PublishedOnce(p: Path, v0: File, v1: File): System {
    OfferedOnce(p, v0, v1).(host := HostOf(p, v1, 1), sent := map[TheManifest(p, v0, v1) := {}], awaiting := {p})
  }

  lemma SeededIsInitial(p: Path, v0: File)
    ensures Init(Seeded(p, v0))
  {
    assert HostTree(HostOf(p, v0, 0)) == map[p := v0];
  }

  lemma OfferStep(p: Path, v0: File, v1: File)
    ensures Next(Staged(p, v0, v1), Offer(TheManifest(p, v0, v1), None, {}), OfferedOnce(p, v0, v1))
  {
    var s, m := Staged(p, v0, v1), TheManifest(p, v0, v1);
    assert s.base.conflicts.Keys + {} == {};
    assert s.offered + {m} == {m};
  }

  lemma OperationLands(p: Path, v0: File, v1: File)
    ensures Ready(HostTree(HostOf(p, v0, 0)), TheOperation(p, v0, v1))
    ensures Landed(HostTree(HostOf(p, v1, 1)), TheOperation(p, v0, v1))
    ensures forall q :: q != p ==> Lookup(HostOf(p, v1, 1), q) == Lookup(HostOf(p, v0, 0), q)
  {
  }

  lemma PublishStep(p: Path, v0: File, v1: File)
    requires v0.content != v1.content
    ensures Next(OfferedOnce(p, v0, v1), Publish(TheManifest(p, v0, v1)), PublishedOnce(p, v0, v1))
  {
    var s, m := OfferedOnce(p, v0, v1), TheManifest(p, v0, v1);
    ManifestShape(p, v0, v1);
    OperationLands(p, v0, v1);
    assert Noted(s.sent, {p}) == map[];
    assert s.awaiting + {p} == {p};
  }

  /** Staged, offered, published. */
  ghost function PrefixAt(p: Path, v0: File, v1: File, k: nat): System {
    if k == 0 then Seeded(p, v0) else if k == 1 then Staged(p, v0, v1) else if k == 2 then OfferedOnce(p, v0, v1)
    else PublishedOnce(p, v0, v1)
  }

  ghost function PrefixEvent(p: Path, v0: File, v1: File, k: nat): Event {
    var m := TheManifest(p, v0, v1);
    if k == 0 then StageEdit else if k == 1 then Offer(m, None, {}) else Publish(m)
  }

  lemma PrefixStep(p: Path, v0: File, v1: File, k: nat)
    requires v0.content != v1.content && k < 3
    ensures Next(PrefixAt(p, v0, v1, k), PrefixEvent(p, v0, v1, k), PrefixAt(p, v0, v1, k + 1))
  {
    if k == 1 { OfferStep(p, v0, v1); } else if k == 2 { PublishStep(p, v0, v1); }
  }

  // ---- steps that both continuations take ----

  /** The user puts the old file back. */
  ghost function AfterRevert(s: System, p: Path, v0: File): System {
    AfterOthersWrote(s, {p}, HostOf(p, v0, 2))
  }

  lemma RevertStep(s: System, p: Path, v0: File, v1: File)
    requires s.host == HostOf(p, v1, 1)
    ensures Next(s, HostEdit(p), AfterRevert(s, p, v0))
  {
  }

  /** The old file put back looks to the seed's baseline as if nothing had happened. */
  lemma SeedIsSeen(p: Path, v0: File)
    ensures forall work: Tree, q :: Facing(Seeded(p, v0).base, HostOf(p, v0, 2), work, {}, {}, {}).H(q)
                                    == Facing(Seeded(p, v0).base, HostOf(p, v0, 2), work, {}, {}, {}).B(q)
    ensures Missed(Seeded(p, v0).base.snapshot, HostOf(p, v0, 2)) == {}
  {
    var from, host := Seeded(p, v0).base, HostOf(p, v0, 2);
    assert Sightings(from.snapshot, host)[p] == Observe(from.snapshot, p, host[p]);
    forall q ensures q !in Missed(from.snapshot, host) {
    }
  }

  function Refreshed(old_: map<Path, Signature>, host: Host): map<Path, Signature> {
    map p | p in old_.Keys + host.Keys :: if p in host then SignatureOf(host[p]) else old_[p]
  }

  /** What a rebase leaves that finds the recorded versions everywhere: it only refreshes signatures. */
  ghost function AfterQuiet(s: System, from: Baseline): System {
    AfterRebase(s, from, s.work,
                Baseline(Snapshot(from.snapshot.id, from.snapshot.files, Refreshed(from.snapshot.signatures, s.host)), map[]), true)
  }

  lemma QuietRebase(s: System, from: Baseline, nextId: Id, kept: bool)
    requires from.conflicts == map[] && nextId !in s.history && Lookup(s.history, from.snapshot.id) == Some(from.snapshot.files)
    requires forall p :: Facing(from, s.host, s.work, {}, {}, {}).H(p) == Facing(from, s.host, s.work, {}, {}, {}).B(p)
    ensures Rebases(s, from, {}, {}, {}, Report([], [], []), nextId, kept, AfterQuiet(s, from))
  {
    var f, t := Facing(from, s.host, s.work, {}, {}, {}), AfterQuiet(s, from);
    forall p
      ensures RowOf(t.base.snapshot, t.base.conflicts, t.work, p) == f.After(p)
      ensures Report([], [], []).Lists(p, f.Decide(p).kind)
    {
      QuietRow(f, p);
    }
  }

  lemma QuietRow(f: Situation, p: Path)
    requires f == Facing(f.baseline, f.host, f.staged, {}, {}, {}) && f.baseline.conflicts == map[] && f.H(p) == f.B(p)
    ensures f.Decide(p) == Decision(Same, false, false, false)
    ensures f.After(p) == Row(Lookup(f.baseline.snapshot.files, p), Lookup(Refreshed(f.baseline.snapshot.signatures, f.host), p),
                              None, Lookup(f.staged, p))
  {
    assert p in f.host ==> f.seen[p] == Observe(f.baseline.snapshot, p, f.host[p]);
  }

  /** The receipt for the one file fits wherever the seed's baseline is current and staging holds v1. */
  ghost function Accepted(s: System, m: Manifest, nextId: Id, kept: bool): System
    requires m in s.sent
  {
    AfterReceipt(s, m, Snapshot(nextId, Visible(s.work), s.base.snapshot.signatures), kept)
  }

  lemma ReceiptStep(s: System, p: Path, v0: File, v1: File, m: Manifest, nextId: Id, kept: bool)
    requires v0.content != v1.content && m == TheManifest(p, v0, v1)
    requires s.up && m in s.sent && s.base.snapshot.id == 0 && nextId !in s.history
    requires s.work == map[p := v1] && (forall q :: q in s.base.snapshot.files <==> q == p)
    ensures Next(s, ReceiptAccepted(m, nextId, kept), Accepted(s, m, nextId, kept))
  {
    ManifestShape(p, v0, v1);
    ReceiptAdvances(s.base.snapshot, p, v0, v1, nextId);
  }

  lemma ReceiptAdvances(s: Snapshot, p: Path, v0: File, v1: File, nextId: Id)
    requires forall q :: q in s.files <==> q == p
    ensures var m := Manifest("", 0, [TheOperation(p, v0, v1)], 1, 1);
            var ops := ReceiptFor(m).operations;
            && |ops| == 1 && StillStaged(Visible(map[p := v1]), ops[0])
            && Advanced(s, Visible(map[p := v1]), Acknowledged(ops, |m.operations|), Snapshot(nextId, Visible(map[p := v1]), s.signatures), nextId)
  {
    var m := Manifest("", 0, [TheOperation(p, v0, v1)], 1, 1);
    ReceiptCoversManifest(m);
    assert OperationPaths(m.operations) == {p} by { assert m.operations[0].path == p; }
  }
}
