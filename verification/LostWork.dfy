/** Concrete states and runs in which a crash, or a save that failed, costs the user a choice or the agent its work. */
module LostWork {
  import opened Common
  import opened Paths
  import opened Staging
  import opened Drift
  import opened DriftTheorems
  import opened Seeding
  import opened Protocol
  import opened Runs
  import opened OneFile

  // ---- choices ----

  /** A one-file workspace whose baseline recorded v0 and where `p` is in conflict. */
  function InConflict(p: Path, v0: File, c: Conflict, host: File, time: int, staged: File, keep: set<Path>, take: set<Path>): Situation {
    Facing(Baseline(SeedSnapshot(HostOf(p, v0, 0), 0), map[p := c]), HostOf(p, host, time), map[p := staged], keep, take, {})
  }

  lemma InConflictMeaning(p: Path, v0: File, c: Conflict, host: File, time: int, staged: File, keep: set<Path>, take: set<Path>)
    requires keep + take <= {p} && keep !! take
    requires SignatureOf(HostFile(host, time)) == SignatureOf(HostFile(v0, 0)) ==> host.content == v0.content
    ensures var f := InConflict(p, v0, c, host, time, staged, keep, take);
            && f.WellFormed() && f.PartlyInstalled(f.staged) && f.Installable(p)
            && f.B(p) == Some(VersionOfEntry(EntryOf(v0)))
            && f.H(p) == Some(VersionOfEntry(EntryOf(host))) && f.S(p) == Some(VersionOfEntry(EntryOf(staged)))
  {
    var f := InConflict(p, v0, c, host, time, staged, keep, take);
    assert f.seen[p] == Observe(f.baseline.snapshot, p, f.host[p]);
  }

  /** The user chose the host's file, which meanwhile is v0 again; the crash came before the install. After the restart
      the conflict is closed and v1, which the user had given up, is pending for publication. */
  lemma TakenChoiceIsLost(p: Path, v0: File, v1: File, c: Conflict, time: int)
    requires v0.content != v1.content
    ensures var f := InConflict(p, v0, c, v0, time, v1, {}, {p});
            var g := Situation(f.baseline, f.seen, f.host, f.staged, {}, {}, f.faults);
            && f.WellFormed() && f.PartlyInstalled(f.staged) && p in f.take && f.Installable(p)
            && ChoiceLost(g, p) && g.After(p).file == Some(v1)
  {
    InConflictMeaning(p, v0, c, v0, time, v1, {}, {p});
    var f := InConflict(p, v0, c, v0, time, v1, {}, {p});
    assert EntryOf(v0).digest != EntryOf(v1).digest;
    InterruptedChoiceIff(f, f.staged, p);
  }

  /** The user kept the staged file, which is v0 again, while the host holds v1; after the restart staging holds v1. */
  lemma KeptChoiceIsOverridden(p: Path, v0: File, v1: File, c: Conflict)
    requires v0.content != v1.content
    ensures var f := InConflict(p, v0, c, v1, 1, v0, {p}, {});
            var g := Situation(f.baseline, f.seen, f.host, f.staged, {}, {}, f.faults);
            && f.WellFormed() && f.PartlyInstalled(f.staged) && p in f.keep && p in f.baseline.conflicts
            && f.After(p).file == Some(v0) && g.Decide(p).install && g.After(p).file == Some(v1)
  {
    InConflictMeaning(p, v0, c, v1, 1, v0, {p}, {});
    var f := InConflict(p, v0, c, v1, 1, v0, {p}, {});
    assert EntryOf(v0).digest != EntryOf(v1).digest;
    InterruptedKeepIff(f, f.staged, p);
  }

  // ---- staged work, after a receipt that was not saved ----

  ghost function NotSaved(p: Path, v0: File, v1: File): System {
    Accepted(PublishedOnce(p, v0, v1), TheManifest(p, v0, v1), 2, false)
  }

  ghost function WorkedOn(p: Path, v0: File, v1: File): System {
    NotSaved(p, v0, v1).(work := map[p := v0])
  }

  ghost function Restarted(p: Path, v0: File, v1: File): System {
    AfterRebase(WorkedOn(p, v0, v1), Seeded(p, v0).base, map[p := v1], Reinstalled(p, v1), true)
  }

  lemma RestartRow(f: Situation, p: Path, v0: File, v1: File, q: Path)
    requires v0.content != v1.content && f == Facing(Seeded(p, v0).base, HostOf(p, v1, 1), map[p := v0], {}, {}, {})
    ensures f.Decide(q) == if q == p then Decision(Absorbed, true, true, false) else Decision(Same, false, false, false)
    ensures f.After(q) == if q == p then Row(Some(EntryOf(v1)), Some(SignatureOf(HostFile(v1, 1))), None, Some(v1)) else Row(None, None, None, None)
  {
    assert f.seen[p] == Observe(f.baseline.snapshot, p, f.host[p]);
    assert EntryOf(v0).digest != EntryOf(v1).digest;
  }

  function Reinstalled(p: Path, v1: File): Baseline {
    Baseline(Snapshot(3, map[p := EntryOf(v1)], map[p := SignatureOf(HostFile(v1, 1))]), map[])
  }

  lemma RestartResult(p: Path, v0: File, v1: File)
    requires v0.content != v1.content
    ensures Facing(Seeded(p, v0).base, HostOf(p, v1, 1), map[p := v0], {}, {}, {})
              .Rebased(Reinstalled(p, v1), map[p := v1], Report([p], [], []), 3)
  {
    var f, t := Facing(Seeded(p, v0).base, HostOf(p, v1, 1), map[p := v0], {}, {}, {}), Reinstalled(p, v1);
    forall q
      ensures RowOf(t.snapshot, t.conflicts, map[p := v1], q) == f.After(q)
      ensures Report([p], [], []).Lists(q, f.Decide(q).kind)
    {
      RestartRow(f, p, v0, v1, q);
    }
  }

  lemma ResumesFrom(s: System, from: Baseline, work: Tree, base: Baseline, report: Report, nextId: Id)
    requires s.saved == Some(from) && nextId !in s.history
    requires Facing(from, s.host, s.work, {}, {}, {}).Rebased(base, work, report, nextId)
    ensures Next(s, Restart({}, report, nextId), AfterRebase(s, from, work, base, true))
  {
  }

  lemma RestartInstalls(p: Path, v0: File, v1: File)
    requires v0.content != v1.content
    ensures Next(WorkedOn(p, v0, v1), Restart({}, Report([p], [], []), 3), Restarted(p, v0, v1))
  {
    RestartResult(p, v0, v1);
    ResumesFrom(WorkedOn(p, v0, v1), Seeded(p, v0).base, map[p := v1], Reinstalled(p, v1), Report([p], [], []), 3);
  }

  ghost function At(p: Path, v0: File, v1: File, k: nat): System {
    if k <= 3 then PrefixAt(p, v0, v1, k) else if k == 4 then NotSaved(p, v0, v1)
    else if k == 5 then WorkedOn(p, v0, v1) else Restarted(p, v0, v1)
  }

  ghost function EventAt(p: Path, v0: File, v1: File, k: nat): Event {
    if k < 3 then PrefixEvent(p, v0, v1, k)
    else if k == 3 then ReceiptAccepted(TheManifest(p, v0, v1), 2, false) else if k == 4 then StageEdit
    else Restart({}, Report([p], [], []), 3)
  }

  lemma EachStep(p: Path, v0: File, v1: File, k: nat)
    requires v0.content != v1.content && k < 6
    ensures Next(At(p, v0, v1, k), EventAt(p, v0, v1, k), At(p, v0, v1, k + 1))
  {
    if k < 3 { PrefixStep(p, v0, v1, k); }
    else if k == 3 { ReceiptStep(PublishedOnce(p, v0, v1), p, v0, v1, TheManifest(p, v0, v1), 2, false); }
    else if k == 5 { RestartInstalls(p, v0, v1); }
  }

  /** v1 is published and acknowledged, but the new baseline is not saved; the agent then stages v0 on top of it. The
      restart takes v0 for the old baseline's file, and the host's v1 replaces it. */
  lemma StagedWorkIsReplaced(p: Path, v0: File, v1: File) returns (states: seq<System>, events: seq<Event>)
    requires v0.content != v1.content
    ensures IsRun(states, events) && |events| == 6
    ensures forall k :: 0 <= k < 6 ==> events[k] == EventAt(p, v0, v1, k)
    ensures VersionOf(states[5].work, p) != BaseOfSystem(states[5], p)
    ensures states[5].work == map[p := v0] && states[6].work == map[p := v1]
  {
    states := seq(7, k requires 0 <= k < 7 => At(p, v0, v1, k));
    events := seq(6, k requires 0 <= k < 6 => EventAt(p, v0, v1, k));
    SeededIsInitial(p, v0);
    forall k | 0 <= k < 6 ensures Next(states[k], events[k], states[k + 1]) {
      EachStep(p, v0, v1, k);
    }
    assert EntryOf(v0).digest != EntryOf(v1).digest;
  }

  // ---- staged work, after a discard that was not saved ----

  /** After a discard whose baseline could not be saved the agent stages v1; the restart seeds again and v1 is gone. */
  lemma DiscardIsRepeated(p: Path, v0: File, v1: File) returns (states: seq<System>, events: seq<Event>)
    ensures IsRun(states, events) && events == [DiscardDone(1, false), StageEdit, Reseed(2)]
    ensures states[2].work == map[p := v1] && states[3].work == map[p := v0]
  {
    var start := Seeded(p, v0);
    var discarded := AfterSeed(start, 1, false);
    var worked := discarded.(work := map[p := v1]);
    states := [start, discarded, worked, AfterSeed(worked, 2, true)];
    events := [DiscardDone(1, false), StageEdit, Reseed(2)];
    SeededIsInitial(p, v0);
    assert HostTree(start.host) == map[p := v0];
    assert Next(start, events[0], discarded) && Next(discarded, events[1], worked) && Next(worked, events[2], states[3]);
  }
}
