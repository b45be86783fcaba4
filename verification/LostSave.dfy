/** A run in which one receipt is accepted twice: the state volume could not be written the first time, the user puts
    the published file back, and the executor restarts from the old baseline and finds nothing to do. */
module LostSave {
  import opened Paths
  import opened Staging
  import opened Drift
  import opened Protocol
  import opened Runs
  import opened OneFile

  ghost function NotSaved(p: Path, v0: File, v1: File): System {
    Accepted(PublishedOnce(p, v0, v1), TheManifest(p, v0, v1), 2, false)
  }

  ghost function Reverted(p: Path, v0: File, v1: File): System {
    AfterRevert(NotSaved(p, v0, v1), p, v0)
  }

  ghost function Restarted(p: Path, v0: File, v1: File): System {
    AfterQuiet(Reverted(p, v0, v1), Seeded(p, v0).base)
  }

  ghost function AcceptedAgain(p: Path, v0: File, v1: File): System {
    Accepted(Restarted(p, v0, v1), TheManifest(p, v0, v1), 4, true)
  }

  lemma RestartsQuietly(p: Path, v0: File, v1: File)
    ensures Next(Reverted(p, v0, v1), Restart({}, Report([], [], []), 3), Restarted(p, v0, v1))
  {
    SeedIsSeen(p, v0);
    QuietRebase(Reverted(p, v0, v1), Seeded(p, v0).base, 3, true);
  }

  ghost function At(p: Path, v0: File, v1: File, k: nat): System {
    if k <= 3 then PrefixAt(p, v0, v1, k) else if k == 4 then NotSaved(p, v0, v1)
    else if k == 5 then Reverted(p, v0, v1) else if k == 6 then Restarted(p, v0, v1) else AcceptedAgain(p, v0, v1)
  }

  ghost function EventAt(p: Path, v0: File, v1: File, k: nat): Event {
    if k < 3 then PrefixEvent(p, v0, v1, k)
    else if k == 3 then ReceiptAccepted(TheManifest(p, v0, v1), 2, false) else if k == 4 then HostEdit(p)
    else if k == 5 then Restart({}, Report([], [], []), 3) else ReceiptAccepted(TheManifest(p, v0, v1), 4, true)
  }

  lemma EarlyStep(p: Path, v0: File, v1: File, k: nat)
    requires v0.content != v1.content && k < 5
    ensures Next(At(p, v0, v1, k), EventAt(p, v0, v1, k), At(p, v0, v1, k + 1))
  {
    if k < 3 { PrefixStep(p, v0, v1, k); }
    else if k == 3 { ReceiptStep(PublishedOnce(p, v0, v1), p, v0, v1, TheManifest(p, v0, v1), 2, false); }
    else { RevertStep(NotSaved(p, v0, v1), p, v0, v1); }
  }

  lemma AcceptsAgain(p: Path, v0: File, v1: File)
    requires v0.content != v1.content
    ensures Next(Restarted(p, v0, v1), ReceiptAccepted(TheManifest(p, v0, v1), 4, true), AcceptedAgain(p, v0, v1))
  {
    ReceiptStep(Restarted(p, v0, v1), p, v0, v1, TheManifest(p, v0, v1), 4, true);
  }

  lemma LateStep(p: Path, v0: File, v1: File, k: nat)
    requires v0.content != v1.content && 5 <= k < 7
    ensures Next(At(p, v0, v1, k), EventAt(p, v0, v1, k), At(p, v0, v1, k + 1))
  {
    if k == 5 { RestartsQuietly(p, v0, v1); }
    else { AcceptsAgain(p, v0, v1); }
  }

  lemma EndsApart(p: Path, v0: File, v1: File)
    requires v0.content != v1.content
    ensures BaseOfSystem(AcceptedAgain(p, v0, v1), p) != HostVersion(AcceptedAgain(p, v0, v1), p)
  {
    assert EntryOf(v0).digest != EntryOf(v1).digest;
  }

  /** The fourth and the seventh event accept the same receipt; the id that the first acceptance left is current
      again after the restart, and the second acceptance leaves the baseline apart from the host. */
  lemma SameReceiptTwice(p: Path, v0: File, v1: File) returns (states: seq<System>, events: seq<Event>)
    requires v0.content != v1.content
    ensures IsRun(states, events) && |events| == 7
    ensures forall k :: 0 <= k < 7 ==> events[k] == EventAt(p, v0, v1, k)
    ensures states[3].base.snapshot.id == 0 && states[4].base.snapshot.id == 2 && states[6].base.snapshot.id == 0
    ensures BaseOfSystem(states[7], p) != HostVersion(states[7], p)
  {
    states := seq(8, k requires 0 <= k < 8 => At(p, v0, v1, k));
    events := seq(7, k requires 0 <= k < 7 => EventAt(p, v0, v1, k));
    SeededIsInitial(p, v0);
    forall k | 0 <= k < 7 ensures Next(states[k], events[k], states[k + 1]) {
      if k < 5 { EarlyStep(p, v0, v1, k); } else { LateStep(p, v0, v1, k); }
    }
    EndsApart(p, v0, v1);
  }
}
