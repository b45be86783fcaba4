/** The reasons for which baseline and host may differ, read off the events of the run. */
module Excuses {
  import opened Common
  import opened Paths
  import opened Publication
  import opened Protocol
  import opened Runs

  /** The baseline is compared with the whole host, or taken from it. */
  ghost predicate Syncs(e: Event) {
    e.RebaseDone? || e.Restart? || e.DiscardDone? || e.Reseed?
  }

  /** Someone other than a publication writes the host at `p`: the user, or a restore that failed. */
  ghost predicate OthersWrite(e: Event, p: Path) {
    (e.HostEdit? && e.p == p) || (e.PublishFailed? && p in e.unrestored)
  }

  ghost predicate Publishes(e: Event, p: Path) {
    e.Publish? && p in OperationPaths(e.m.operations)
  }

  ghost predicate Acknowledges(e: Event, p: Path) {
    e.ReceiptAccepted? && p in OperationPaths(e.m.operations)
  }

  /** A rebase that cannot see a change: size and time are those the baseline it starts from recorded, the content is not. */
  ghost predicate Overlooks(s: System, e: Event, p: Path) {
    && (e.RebaseDone? || e.Restart?)
    && var b := StartsFrom(s, e).snapshot;
       && p in s.host && p in b.files && p in b.signatures
       && b.signatures[p].size == |s.host[p].file.content| && b.signatures[p].mtime == s.host[p].mtime
       && b.files[p].digest != Sha256(s.host[p].file.content)
  }

  // ---- one step ----

  lemma EditedStep(s: System, e: Event, t: System, p: Path)
    requires Next(s, e, t)
    ensures p in t.edited <==> !Syncs(e) && (OthersWrite(e, p) || p in s.edited)
  {
  }

  lemma AwaitingStep(s: System, e: Event, t: System, p: Path)
    requires Next(s, e, t)
    ensures p in t.awaiting <==> !Syncs(e) && !Acknowledges(e, p) && (Publishes(e, p) || p in s.awaiting)
  {
  }

  lemma HiddenStep(s: System, e: Event, t: System, p: Path)
    requires Next(s, e, t)
    ensures p in t.hidden <==> Overlooks(s, e, p) || (!Syncs(e) && p in s.hidden)
  {
  }

  lemma OvertakenStep(s: System, e: Event, t: System, p: Path)
    requires Next(s, e, t)
    ensures e.ReceiptAccepted? ==> e.m in s.sent
    ensures p in t.overtaken <==> !Syncs(e) && if Acknowledges(e, p) then p in s.sent[e.m] else p in s.overtaken
  {
  }

  lemma SentStep(s: System, e: Event, t: System, m: Manifest, p: Path)
    requires Next(s, e, t)
    ensures m in t.sent && p in t.sent[m] <==>
            e != Publish(m) && m in s.sent && (OthersWrite(e, p) || Publishes(e, p) || p in s.sent[m])
  {
  }

  lemma SentGrows(s: System, e: Event, t: System, m: Manifest)
    requires Next(s, e, t)
    ensures m in t.sent <==> e == Publish(m) || m in s.sent
  {
  }

  // ---- whole runs ----

  ghost predicate EditedSince(events: seq<Event>, i: nat, p: Path)
    requires i <= |events|
  {
    exists k :: 0 <= k < i && OthersWrite(events[k], p) && forall l :: k < l < i ==> !Syncs(events[l])
  }

  ghost predicate AwaitsReceipt(events: seq<Event>, i: nat, p: Path)
    requires i <= |events|
  {
    exists k :: 0 <= k < i && Publishes(events[k], p) && forall l :: k < l < i ==> !Syncs(events[l]) && !Acknowledges(events[l], p)
  }

  ghost predicate OverlookedSince(states: seq<System>, events: seq<Event>, i: nat, p: Path)
    requires i <= |events| < |states|
  {
    exists k :: 0 <= k < i && Overlooks(states[k], events[k], p) && forall l :: k < l < i ==> !Syncs(events[l])
  }

  /** Since the batch last reached the host, someone else, or another batch, wrote the file at `p`. */
  ghost predicate WrittenAfter(events: seq<Event>, i: nat, m: Manifest, p: Path)
    requires i <= |events|
  {
    exists j, k :: 0 <= j < k < i && LastPublished(events, j, i, m) && Writes(events[k], p)
  }

  ghost predicate Writes(e: Event, p: Path) {
    OthersWrite(e, p) || Publishes(e, p)
  }

  ghost predicate LastPublished(events: seq<Event>, j: nat, i: nat, m: Manifest)
    requires j < i <= |events|
  {
    events[j] == Publish(m) && forall l :: j < l < i ==> events[l] != Publish(m)
  }

  ghost predicate AcknowledgedTooLate(events: seq<Event>, i: nat, p: Path)
    requires i <= |events|
  {
    exists k :: 0 <= k < i && AcceptedTooLate(events, k, i, p)
  }

  ghost predicate AcceptedTooLate(events: seq<Event>, k: nat, i: nat, p: Path)
    requires k < i <= |events|
  {
    && Acknowledges(events[k], p) && WrittenAfter(events, k, events[k].m, p)
    && forall l :: k < l < i ==> !Syncs(events[l]) && !Acknowledges(events[l], p)
  }

  lemma {:induction false} EditedIff(states: seq<System>, events: seq<Event>, i: nat, p: Path)
    requires IsRun(states, events) && i < |states|
    ensures p in states[i].edited <==> EditedSince(events, i, p)
  {
    if i > 0 {
      EditedIff(states, events, i - 1, p);
      assert Next(states[i - 1], events[i - 1], states[i]);
      EditedStep(states[i - 1], events[i - 1], states[i], p);
      EditedSinceStep(events, i, p);
    }
  }

  lemma EditedSinceStep(events: seq<Event>, i: nat, p: Path)
    requires 0 < i <= |events|
    ensures EditedSince(events, i, p) <==> !Syncs(events[i - 1]) && (OthersWrite(events[i - 1], p) || EditedSince(events, i - 1, p))
  {
    var e := events[i - 1];
    if EditedSince(events, i, p) {
      var k :| 0 <= k < i && OthersWrite(events[k], p) && forall l :: k < l < i ==> !Syncs(events[l]);
    }
  }

  lemma {:induction false} AwaitingIff(states: seq<System>, events: seq<Event>, i: nat, p: Path)
    requires IsRun(states, events) && i < |states|
    ensures p in states[i].awaiting <==> AwaitsReceipt(events, i, p)
  {
    if i > 0 {
      AwaitingIff(states, events, i - 1, p);
      assert Next(states[i - 1], events[i - 1], states[i]);
      AwaitingStep(states[i - 1], events[i - 1], states[i], p);
      AwaitsReceiptStep(events, i, p);
    }
  }

  lemma AwaitsReceiptStep(events: seq<Event>, i: nat, p: Path)
    requires 0 < i <= |events|
    ensures AwaitsReceipt(events, i, p) <==>
            && !Syncs(events[i - 1]) && !Acknowledges(events[i - 1], p)
            && (Publishes(events[i - 1], p) || AwaitsReceipt(events, i - 1, p))
  {
    var e := events[i - 1];
    if AwaitsReceipt(events, i, p) {
      var k :| 0 <= k < i && Publishes(events[k], p) && forall l :: k < l < i ==> !Syncs(events[l]) && !Acknowledges(events[l], p);
    }
  }

  lemma {:induction false} HiddenIff(states: seq<System>, events: seq<Event>, i: nat, p: Path)
    requires IsRun(states, events) && i < |states|
    ensures p in states[i].hidden <==> OverlookedSince(states, events, i, p)
  {
    if i > 0 {
      HiddenIff(states, events, i - 1, p);
      assert Next(states[i - 1], events[i - 1], states[i]);
      HiddenStep(states[i - 1], events[i - 1], states[i], p);
      OverlookedStep(states, events, i, p);
    }
  }

  lemma OverlookedStep(states: seq<System>, events: seq<Event>, i: nat, p: Path)
    requires 0 < i <= |events| < |states|
    ensures OverlookedSince(states, events, i, p) <==>
            Overlooks(states[i - 1], events[i - 1], p) || (!Syncs(events[i - 1]) && OverlookedSince(states, events, i - 1, p))
  {
    var e := events[i - 1];
    if OverlookedSince(states, events, i, p) {
      var k :| 0 <= k < i && Overlooks(states[k], events[k], p) && forall l :: k < l < i ==> !Syncs(events[l]);
    }
  }

  lemma SentAt(states: seq<System>, events: seq<Event>, j: nat, m: Manifest, p: Path)
    requires IsRun(states, events) && j < |events|
    ensures m in states[j + 1].sent <==> events[j] == Publish(m) || m in states[j].sent
    ensures m in states[j + 1].sent && p in states[j + 1].sent[m] <==>
            events[j] != Publish(m) && m in states[j].sent && (Writes(events[j], p) || p in states[j].sent[m])
  {
    assert Next(states[j], events[j], states[j + 1]);
    SentGrows(states[j], events[j], states[j + 1], m);
    SentStep(states[j], events[j], states[j + 1], m, p);
  }

  lemma {:induction false} SentIff(states: seq<System>, events: seq<Event>, i: nat, m: Manifest, p: Path)
    requires IsRun(states, events) && i < |states|
    ensures m in states[i].sent <==> exists j :: 0 <= j < i && events[j] == Publish(m)
    ensures m in states[i].sent && p in states[i].sent[m] <==> WrittenAfter(events, i, m, p)
  {
    if i > 0 {
      var j := i - 1;
      SentIff(states, events, j, m, p);
      SentAt(states, events, j, m, p);
      WrittenAfterStep(events, j, m, p);
    }
  }

  lemma StillLast(events: seq<Event>, j: nat, i: nat, m: Manifest)
    requires j < i < |events|
    ensures LastPublished(events, j, i + 1, m) <==> LastPublished(events, j, i, m) && events[i] != Publish(m)
  {
    if LastPublished(events, j, i, m) && events[i] != Publish(m) {
      forall l | j < l < i + 1 ensures events[l] != Publish(m) {
        assert l == i || l < i;
      }
    }
  }

  lemma WrittenAfterStep(events: seq<Event>, i: nat, m: Manifest, p: Path)
    requires i < |events|
    ensures WrittenAfter(events, i + 1, m, p) <==>
            && events[i] != Publish(m)
            && (WrittenAfter(events, i, m, p) || ((exists j :: 0 <= j < i && events[j] == Publish(m)) && Writes(events[i], p)))
  {
    var n := i + 1;
    forall j | 0 <= j < i ensures LastPublished(events, j, n, m) <==> LastPublished(events, j, i, m) && events[i] != Publish(m) {
      StillLast(events, j, i, m);
    }
    if WrittenAfter(events, n, m, p) {
      var j, k :| 0 <= j < k < n && LastPublished(events, j, n, m) && Writes(events[k], p);
      assert k < i ==> WrittenAfter(events, i, m, p);
    }
    if events[i] != Publish(m) && (exists j :: 0 <= j < i && events[j] == Publish(m)) && Writes(events[i], p) {
      var j := LastPublication(events, i, m);
      assert LastPublished(events, j, n, m);
    }
    if events[i] != Publish(m) && WrittenAfter(events, i, m, p) {
      var j, k :| 0 <= j < k < i && LastPublished(events, j, i, m) && Writes(events[k], p);
      assert LastPublished(events, j, n, m);
    }
  }

  lemma {:induction false} LastPublication(events: seq<Event>, i: nat, m: Manifest) returns (j: nat)
    requires i <= |events| && exists j :: 0 <= j < i && events[j] == Publish(m)
    ensures j < i && LastPublished(events, j, i, m)
  {
    if events[i - 1] == Publish(m) {
      j := i - 1;
    } else {
      j := LastPublication(events, i - 1, m);
    }
  }

  lemma OvertakenAt(states: seq<System>, events: seq<Event>, i: nat, p: Path)
    requires IsRun(states, events) && i < |events|
    ensures p in states[i + 1].overtaken <==>
            if Acknowledges(events[i], p) then WrittenAfter(events, i, events[i].m, p)
            else !Syncs(events[i]) && p in states[i].overtaken
  {
    assert Next(states[i], events[i], states[i + 1]);
    OvertakenStep(states[i], events[i], states[i + 1], p);
    if events[i].ReceiptAccepted? {
      SentIff(states, events, i, events[i].m, p);
    }
  }

  lemma {:induction false} OvertakenIff(states: seq<System>, events: seq<Event>, i: nat, p: Path)
    requires IsRun(states, events) && i < |states|
    ensures p in states[i].overtaken <==> AcknowledgedTooLate(events, i, p)
  {
    if i > 0 {
      var j := i - 1;
      OvertakenIff(states, events, j, p);
      OvertakenAt(states, events, j, p);
      TooLateStep(events, j, p);
    }
  }

  lemma TooLateNow(events: seq<Event>, k: nat, p: Path)
    requires k < |events|
    ensures AcceptedTooLate(events, k, k + 1, p) <==> Acknowledges(events[k], p) && WrittenAfter(events, k, events[k].m, p)
  {
  }

  lemma StillTooLate(events: seq<Event>, k: nat, i: nat, p: Path)
    requires k < i < |events|
    ensures AcceptedTooLate(events, k, i + 1, p) <==>
            AcceptedTooLate(events, k, i, p) && !Syncs(events[i]) && !Acknowledges(events[i], p)
  {
    if AcceptedTooLate(events, k, i, p) && !Syncs(events[i]) && !Acknowledges(events[i], p) {
      forall l | k < l < i + 1 ensures !Syncs(events[l]) && !Acknowledges(events[l], p) {
        assert l == i || l < i;
      }
    }
  }

  lemma TooLateStep(events: seq<Event>, i: nat, p: Path)
    requires i < |events|
    ensures AcknowledgedTooLate(events, i + 1, p) <==>
            if Acknowledges(events[i], p) then WrittenAfter(events, i, events[i].m, p)
            else !Syncs(events[i]) && AcknowledgedTooLate(events, i, p)
  {
    var n := i + 1;
    TooLateNow(events, i, p);
    forall k | 0 <= k < i
      ensures AcceptedTooLate(events, k, n, p) <==>
              AcceptedTooLate(events, k, i, p) && !Syncs(events[i]) && !Acknowledges(events[i], p)
    {
      StillTooLate(events, k, i, p);
    }
    assert AcceptedTooLate(events, i, n, p) ==> AcknowledgedTooLate(events, n, p);
  }

  /** Over every run, where baseline and host differ in digest or mode there is a reason among the events: the path is an
      open conflict; or since the last sync someone wrote the host there, or a batch reached it and has not been
      acknowledged; or the last sync could not see the change; or the batch was acknowledged only after someone else had
      written the published file. */
  lemma EveryDifferenceHasItsReason(states: seq<System>, events: seq<Event>, i: nat, p: Path)
    requires IsRun(states, events) && i < |states|
    requires BaseOfSystem(states[i], p) != HostVersion(states[i], p)
    ensures || p in states[i].base.conflicts
            || EditedSince(events, i, p) || AwaitsReceipt(events, i, p)
            || OverlookedSince(states, events, i, p) || AcknowledgedTooLate(events, i, p)
  {
    if p !in Excused(states[i]) {
      BaselineTracksHost(states, events, i, p);
    }
    EditedIff(states, events, i, p);
    AwaitingIff(states, events, i, p);
    HiddenIff(states, events, i, p);
    OvertakenIff(states, events, i, p);
  }
}
