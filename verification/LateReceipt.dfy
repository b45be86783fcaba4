/** A run in which an accepted receipt leaves baseline and host apart although nobody edited the host since
    the last rebase: the user reverts a published file, a rebase finds nothing to do, and only then the
    receipt arrives. */
module LateReceipt {
  import opened Common
  import opened Paths
  import opened Staging
  import opened Drift
  import opened Protocol
  import opened Runs
  import opened OneFile

  ghost function Reverted(p: Path, v0: File, v1: File): System {
    AfterRevert(PublishedOnce(p, v0, v1), p, v0)
  }

  ghost function Rebased(p: Path, v0: File, v1: File): System {
    AfterQuiet(Reverted(p, v0, v1), Reverted(p, v0, v1).base)
  }

  ghost function Last(p: Path, v0: File, v1: File): System {
    Accepted(Rebased(p, v0, v1), TheManifest(p, v0, v1), 2, true)
  }

  lemma RebasesQuietly(p: Path, v0: File, v1: File)
    ensures Next(Reverted(p, v0, v1), RebaseDone({}, {}, {}, Report([], [], []), 1, true), Rebased(p, v0, v1))
  {
    SeedIsSeen(p, v0);
    QuietRebase(Reverted(p, v0, v1), Reverted(p, v0, v1).base, 1, true);
  }

  ghost function At(p: Path, v0: File, v1: File, k: nat): System {
    if k <= 3 then PrefixAt(p, v0, v1, k) else if k == 4 then Reverted(p, v0, v1)
    else if k == 5 then Rebased(p, v0, v1) else Last(p, v0, v1)
  }

  ghost function EventAt(p: Path, v0: File, v1: File, k: nat): Event {
    if k < 3 then PrefixEvent(p, v0, v1, k) else if k == 3 then HostEdit(p)
    else if k == 4 then RebaseDone({}, {}, {}, Report([], [], []), 1, true)
    else ReceiptAccepted(TheManifest(p, v0, v1), 2, true)
  }

  lemma EachStep(p: Path, v0: File, v1: File, k: nat)
    requires v0.content != v1.content && k < 6
    ensures Next(At(p, v0, v1, k), EventAt(p, v0, v1, k), At(p, v0, v1, k + 1))
  {
    if k < 3 { PrefixStep(p, v0, v1, k); }
    else if k == 3 { RevertStep(PublishedOnce(p, v0, v1), p, v0, v1); }
    else if k == 4 { RebasesQuietly(p, v0, v1); }
    else { ReceiptStep(Rebased(p, v0, v1), p, v0, v1, TheManifest(p, v0, v1), 2, true); }
  }

  lemma EndsApart(p: Path, v0: File, v1: File)
    requires v0.content != v1.content
    ensures var last := Last(p, v0, v1);
            && last.base.conflicts == map[] && last.edited == {} && last.hidden == {} && last.awaiting == {} && last.overtaken == {p}
            && BaseOfSystem(last, p) == Some(VersionOfEntry(EntryOf(v1)))
            && HostVersion(last, p) == Some(VersionOfEntry(EntryOf(v0)))
            && BaseOfSystem(last, p) != HostVersion(last, p)
  {
    ManifestShape(p, v0, v1);
    SeedIsSeen(p, v0);
    assert EntryOf(v0).digest != EntryOf(v1).digest;
  }

  /** At the end nothing is in conflict, edited since the last sync, hidden, or awaiting a receipt, and yet the
      baseline records v1 while the host holds v0. */
  lemma AcceptedTooLate(p: Path, v0: File, v1: File) returns (states: seq<System>, events: seq<Event>)
    requires v0.content != v1.content
    ensures IsRun(states, events) && |events| == 6
    ensures forall k :: 0 <= k < 6 ==> events[k] == EventAt(p, v0, v1, k)
    ensures var last := states[6];
            && last.base.conflicts == map[] && last.edited == {} && last.hidden == {} && last.awaiting == {} && last.overtaken == {p}
            && BaseOfSystem(last, p) == Some(VersionOfEntry(EntryOf(v1)))
            && HostVersion(last, p) == Some(VersionOfEntry(EntryOf(v0)))
            && BaseOfSystem(last, p) != HostVersion(last, p)
  {
    states := seq(7, k requires 0 <= k < 7 => At(p, v0, v1, k));
    events := seq(6, k requires 0 <= k < 6 => EventAt(p, v0, v1, k));
    SeededIsInitial(p, v0);
    forall k | 0 <= k < 6 ensures Next(states[k], events[k], states[k + 1]) {
      EachStep(p, v0, v1, k);
    }
    EndsApart(p, v0, v1);
  }
}
