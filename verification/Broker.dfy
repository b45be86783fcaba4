/** The desktop's host writer: one batch is published all or nothing. */
module Broker {
  import opened Common
  import opened Paths
  import opened Staging
  import opened Drift
  import opened Publication

  const PRIVATE_MODE: nat := 0x180  // 0o600, what a temporary file is created with

  /** What can go wrong while one operation is carried out. */
  datatype Fault =
    | Rejected            // the target is a link, a hard link, or escapes the workspace
    | CopyFails           // no recovery copy could be made
    | WriteFails          // the write or the unlink failed, leaving the target alone
    | ModeNotSet          // the content is in place but the mode could not be set
    | Garbled(file: File) // something else is in place after the write

  datatype PublishError =
    | Refused
    | Stopped(completed: seq<Path>, restored: seq<Path>, unrestored: seq<Path>)

  class HostWorkspace {
    var files: Host

    constructor (initial: Host)
      ensures files == initial
    {
      files := initial;
    }
  }

  /** The host file is the one that was reviewed. */
  predicate Ready(t: Tree, op: PublishOperation) {
    && VersionOf(t, op.path) == op.base
    && (op.operation != Create ==> op.path in t)
  }

  /** The host holds what the operation published. */
  predicate Landed(t: Tree, op: PublishOperation) {
    if op.operation == Delete then op.path !in t
    else && op.path in t
         && Some(t[op.path].content) == op.content
         && (op.stagedMode.Some? ==> t[op.path].mode == op.stagedMode.value)
  }

  /** Where one operation got to. A copy is what was on the host before the path was touched. */
  datatype Progress = Untouched | Touched(copy: Option<File>) | Completed(copy: Option<File>)

  /** Carry out one operation: check the base, keep a recovery copy, write, and check the write. */
  method PublishOne(host: HostWorkspace, op: PublishOperation, fault: Option<Fault>, now: int)
    returns (r: Progress)
    requires op.Valid()
    modifies host
    ensures r == Untouched ==> host.files == old(host.files)
    ensures r != Untouched ==> Ready(HostTree(old(host.files)), op) && r.copy == Lookup(HostTree(old(host.files)), op.path)
    ensures r.Completed? ==> Landed(HostTree(host.files), op)
    ensures r.Completed? && fault == None && op.operation != Delete ==>
              Lookup(host.files, op.path)
              == Some(HostFile(File(op.content.value, if op.stagedMode.Some? then op.stagedMode.value else 0x180), now))
    ensures forall q :: q != op.path ==> Lookup(host.files, q) == Lookup(old(host.files), q)
    ensures fault == None && Ready(HostTree(old(host.files)), op) ==> r.Completed?
  {
    var tree := HostTree(host.files);
    if fault == Some(Rejected) || (op.operation != Create && op.path !in host.files) {
      return Untouched;
    }
    if VersionOf(tree, op.path) != op.base {
      return Untouched;
    }
    var copy := Lookup(tree, op.path);
    if fault == Some(CopyFails) {
      return Untouched;
    }
    if fault == Some(WriteFails) {
      return Touched(copy);
    }
    if op.operation == Delete {
      host.files := host.files - {op.path};
      return if fault == None then Completed(copy) else Touched(copy);
    }
    var written := File(op.content.value, match op.stagedMode case Some(m) => m case None => PRIVATE_MODE);
    if fault == Some(ModeNotSet) {
      host.files := host.files[op.path := HostFile(written.(mode := PRIVATE_MODE), now)];
      return Touched(copy);
    }
    var found := match fault case Some(Garbled(f)) => f case _ => written;
    host.files := host.files[op.path := HostFile(found, now)];
    if Some(Sha256(found.content)) != op.stagedDigest || (op.stagedMode.Some? && found.mode != op.stagedMode.value) {
      return Touched(copy);
    }
    return Completed(copy);
  }

  function Stamped(f: Option<File>, now: int): Option<HostFile> {
    match f case Some(x) => Some(HostFile(x, now)) case None => None
  }

  lemma HostTreeLookup(h: Host, p: Path)
    ensures Lookup(HostTree(h), p) == match Lookup(h, p) case Some(f) => Some(f.file) case None => None
  {
  }

  /** `_restore_touched`: undo newest first. A path whose restore fails is left as `failing` says. */
  method RestoreTouched(
    host: HostWorkspace, copies: map<Path, Option<File>>, touched: seq<Path>, failing: map<Path, Option<File>>, now: int)
    returns (restored: seq<Path>, errors: seq<Path>)
    requires forall i :: 0 <= i < |touched| ==> touched[i] in copies
    modifies host
    ensures forall p :: p in touched && p !in errors ==> Lookup(HostTree(host.files), p) == copies[p]
    ensures forall p :: p !in touched ==> Lookup(host.files, p) == Lookup(old(host.files), p)
    ensures forall p :: p in errors ==> p in touched && p in failing
    ensures forall p :: p in touched ==> p in restored || p in errors
  {
    restored, errors := [], [];
    var i := |touched|;
    while i > 0
      invariant 0 <= i <= |touched|
      invariant forall p :: p !in touched ==> Lookup(host.files, p) == Lookup(old(host.files), p)
      invariant forall j :: i <= j < |touched| ==>
                  && (touched[j] in restored || touched[j] in errors)
                  && (touched[j] !in errors ==> Lookup(HostTree(host.files), touched[j]) == copies[touched[j]])
      invariant forall p :: p in errors ==> p in touched && p in failing
    {
      i := i - 1;
      var p := touched[i];
      ghost var before := host.files;
      if p in failing {
        host.files := Put(host.files, p, Stamped(failing[p], now));
        PutThenLookup(before, p, Stamped(failing[p], now));
        errors := errors + [p];
      } else {
        host.files := Put(host.files, p, Stamped(copies[p], now));
        PutThenLookup(before, p, Stamped(copies[p], now));
        restored := restored + [p];
      }
      forall j | i <= j < |touched| && touched[j] !in errors
        ensures Lookup(HostTree(host.files), touched[j]) == copies[touched[j]]
      {
        HostTreeLookup(host.files, touched[j]);
        HostTreeLookup(before, touched[j]);
      }
    }
  }

  /** The injected failures of one batch: per operation, per restore, and of the final record. */
  datatype Plan = Plan(faults: map<Path, Fault>, restores: map<Path, Option<File>>, recordFails: bool)

  const NO_FAULTS := Plan(map[], map[], false)

  /** The checks made before anything is touched. */
  ghost predicate Accepts(identity: string, neverPublish: set<Path>, m: Manifest, approved: set<Path>) {
    && m.workspace == identity
    && |m.operations| <= PUBLISH_BATCH_MAX_OPERATIONS
    && DistinctPaths(m.operations)
    && OperationPaths(m.operations) == approved
    && approved !! neverPublish
    && TotalPayload(m.operations) <= PUBLISH_BATCH_MAX_BYTES
  }

  /** The paths of the first `n` operations. */
  ghost function Begun(ops: seq<PublishOperation>, n: nat): set<Path>
    requires n <= |ops|
  {
    if n == 0 then {} else Begun(ops, n - 1) + {ops[n - 1].path}
  }

  lemma {:induction false} BegunMembers(ops: seq<PublishOperation>, n: nat)
    requires n <= |ops|
    ensures forall p :: p in Begun(ops, n) <==> exists i :: 0 <= i < n && ops[i].path == p
  {
    if n > 0 {
      BegunMembers(ops, n - 1);
    }
  }

  lemma AllBegun(ops: seq<PublishOperation>)
    ensures Begun(ops, |ops|) == OperationPaths(ops)
  {
    BegunMembers(ops, |ops|);
  }

  lemma BegunWithin(ops: seq<PublishOperation>, n: nat)
    requires n <= |ops|
    ensures Begun(ops, n) <= OperationPaths(ops)
  {
    BegunMembers(ops, n);
  }

  lemma NextIsNew(ops: seq<PublishOperation>, n: nat)
    requires n < |ops| && DistinctPaths(ops)
    ensures ops[n].path !in Begun(ops, n)
  {
    BegunMembers(ops, n);
  }

  /** Both readings of an operation depend only on the host file at its path. */
  lemma SameFileSameReading(a: Host, b: Host, op: PublishOperation)
    requires Lookup(a, op.path) == Lookup(b, op.path)
    ensures Ready(HostTree(a), op) == Ready(HostTree(b), op)
    ensures Landed(HostTree(a), op) == Landed(HostTree(b), op)
    ensures Lookup(HostTree(a), op.path) == Lookup(HostTree(b), op.path)
  {
    HostTreeLookup(a, op.path);
    HostTreeLookup(b, op.path);
  }

  // ---- edits by the user while a batch is carried out ----

  /** What the user writes or removes at one moment. */
  type Edits = map<Path, Option<HostFile>>

  function Edited(h: Host, e: Edits): Host {
    map p | p in h.Keys + e.Keys && (p in e ==> e[p].Some?) :: if p in e then e[p].value else h[p]
  }

  lemma EditedAt(h: Host, e: Edits, p: Path)
    ensures Lookup(Edited(h, e), p) == if p in e then e[p] else Lookup(h, p)
  {
  }

  /** The host after the first `n` rounds of edits, as it would be without the publication. */
  function ByUser(h: Host, rounds: seq<Edits>, n: nat): Host
    requires n <= |rounds|
  {
    if n == 0 then h else Edited(ByUser(h, rounds, n - 1), rounds[n - 1])
  }

  ghost predicate EditedBetween(rounds: seq<Edits>, from: nat, to: nat, p: Path)
    requires to <= |rounds|
  {
    exists r :: from <= r < to && p in rounds[r]
  }

  /** One operation was reviewed against what the user had left when its turn came; it has landed, and stands unless
      the user has edited the file since. */
  ghost predicate Standing(ops: seq<PublishOperation>, j: nat, h0: Host, rounds: seq<Edits>, n: nat, h: Host)
    requires j < |ops| && j < n <= |rounds|
  {
    var p := ops[j].path;
    && Ready(HostTree(ByUser(h0, rounds, j + 1)), ops[j])
    && if EditedBetween(rounds, j + 1, n, p) then Lookup(h, p) == Lookup(ByUser(h0, rounds, n), p) else Landed(HostTree(h), ops[j])
  }

  /** The first `i` operations stand, and everything else is as the user left it, after `n` rounds of edits. */
  ghost predicate Underway(ops: seq<PublishOperation>, i: nat, h0: Host, rounds: seq<Edits>, n: nat, h: Host)
    requires i <= |ops| && i <= n <= |rounds|
  {
    && (forall j :: 0 <= j < i ==> Standing(ops, j, h0, rounds, n, h))
    && (forall p :: p !in Begun(ops, i) ==> Lookup(h, p) == Lookup(ByUser(h0, rounds, n), p))
  }

  lemma UserEdits(ops: seq<PublishOperation>, i: nat, h0: Host, rounds: seq<Edits>, before: Host, after: Host)
    requires i <= |ops| && i < |rounds|
    requires Underway(ops, i, h0, rounds, i, before) && after == Edited(before, rounds[i])
    ensures Underway(ops, i, h0, rounds, i + 1, after)
  {
    forall p ensures Lookup(after, p) == if p in rounds[i] then rounds[i][p] else Lookup(before, p) {
      EditedAt(before, rounds[i], p);
    }
    forall p ensures Lookup(ByUser(h0, rounds, i + 1), p) == if p in rounds[i] then rounds[i][p] else Lookup(ByUser(h0, rounds, i), p) {
      EditedAt(ByUser(h0, rounds, i), rounds[i], p);
    }
    var n := i + 1;
    forall j | 0 <= j < i ensures Standing(ops, j, h0, rounds, n, after) {
      StandsOn(ops, j, h0, rounds, i, before, after);
    }
  }

  lemma StandsOn(ops: seq<PublishOperation>, j: nat, h0: Host, rounds: seq<Edits>, i: nat, before: Host, after: Host)
    requires j < |ops| && j < i < |rounds|
    requires Standing(ops, j, h0, rounds, i, before)
    requires var p := ops[j].path;
             && Lookup(after, p) == (if p in rounds[i] then rounds[i][p] else Lookup(before, p))
             && Lookup(ByUser(h0, rounds, i + 1), p) == if p in rounds[i] then rounds[i][p] else Lookup(ByUser(h0, rounds, i), p)
    ensures Standing(ops, j, h0, rounds, i + 1, after)
  {
    var p := ops[j].path;
    assert EditedBetween(rounds, j + 1, i + 1, p) <==> EditedBetween(rounds, j + 1, i, p) || p in rounds[i];
    if p !in rounds[i] {
      SameFileSameReading(before, after, ops[j]);
    }
  }

  lemma OneMoreStands(ops: seq<PublishOperation>, i: nat, h0: Host, rounds: seq<Edits>, before: Host, after: Host)
    requires i < |ops| && i < |rounds| && DistinctPaths(ops)
    requires Underway(ops, i, h0, rounds, i + 1, before)
    requires Ready(HostTree(before), ops[i]) && Landed(HostTree(after), ops[i])
    requires forall q :: q != ops[i].path ==> Lookup(after, q) == Lookup(before, q)
    ensures Underway(ops, i + 1, h0, rounds, i + 1, after)
  {
    var n := i + 1;
    forall j | 0 <= j < i ensures Standing(ops, j, h0, rounds, n, after) {
      assert Standing(ops, j, h0, rounds, n, before);
      assert ops[j].path != ops[i].path;
      SameFileSameReading(before, after, ops[j]);
    }
    NextIsNew(ops, i);
    SameFileSameReading(before, ByUser(h0, rounds, i + 1), ops[i]);
    assert Standing(ops, i, h0, rounds, i + 1, after);
  }

  lemma AtItsTurn(ops: seq<PublishOperation>, i: nat, h0: Host, rounds: seq<Edits>, before: Host)
    requires i < |ops| <= |rounds| && DistinctPaths(ops) && Underway(ops, i, h0, rounds, i + 1, before)
    ensures Ready(HostTree(before), ops[i]) == !Blocked(ops, h0, rounds, i)
  {
    NextIsNew(ops, i);
    SameFileSameReading(before, ByUser(h0, rounds, i + 1), ops[i]);
  }

  /** Every touched path was reviewed and copied when its turn came. */
  ghost predicate Copied(
    ops: seq<PublishOperation>, h0: Host, rounds: seq<Edits>, copies: map<Path, Option<File>>, touched: seq<Path>, i: nat)
    requires i <= |ops| && i <= |rounds|
  {
    && (forall p :: p in touched ==> p in copies && p in Begun(ops, i))
    && forall j :: 0 <= j < i && ops[j].path in touched ==>
         && Ready(HostTree(ByUser(h0, rounds, j + 1)), ops[j])
         && copies[ops[j].path] == Lookup(HostTree(ByUser(h0, rounds, j + 1)), ops[j].path)
  }

  lemma CopyOne(
    ops: seq<PublishOperation>, h0: Host, rounds: seq<Edits>, copies: map<Path, Option<File>>, touched: seq<Path>, i: nat,
    before: Host)
    requires i < |ops| && i < |rounds| && DistinctPaths(ops)
    requires Underway(ops, i, h0, rounds, i + 1, before) && Copied(ops, h0, rounds, copies, touched, i)
    requires Ready(HostTree(before), ops[i])
    ensures Copied(ops, h0, rounds, copies[ops[i].path := Lookup(HostTree(before), ops[i].path)], touched + [ops[i].path], i + 1)
  {
    NextIsNew(ops, i);
    SameFileSameReading(before, ByUser(h0, rounds, i + 1), ops[i]);
    assert forall j :: 0 <= j < i ==> ops[j].path != ops[i].path;
  }

  function Earlier(a: nat, b: nat): nat {
    if a < b then a else b
  }

  /** A stopped batch leaves each file as the user had left it when the operation on that file had its turn, or at the
      end if it had none, except where the restore itself failed. */
  ghost predicate RestoredInTurn(
    ops: seq<PublishOperation>, h0: Host, rounds: seq<Edits>, reached: nat, unrestored: seq<Path>, h: Host)
    requires reached < |rounds|
  {
    && (forall j :: 0 <= j < |ops| && ops[j].path !in unrestored ==>
          Lookup(HostTree(h), ops[j].path) == Lookup(HostTree(ByUser(h0, rounds, Earlier(j, reached) + 1)), ops[j].path))
    && forall p :: p !in OperationPaths(ops) ==> Lookup(h, p) == Lookup(ByUser(h0, rounds, reached + 1), p)
  }

  /** Whatever happened, only files that were reviewed when their turn came differ from what the user left. */
  ghost predicate ReviewedInTurn(ops: seq<PublishOperation>, h0: Host, rounds: seq<Edits>, reached: nat, h: Host)
    requires reached < |rounds|
  {
    && (forall j :: 0 <= j < |ops| && Lookup(h, ops[j].path) != Lookup(ByUser(h0, rounds, reached + 1), ops[j].path) ==>
          j <= reached && Ready(HostTree(ByUser(h0, rounds, j + 1)), ops[j]))
    && forall p :: p !in OperationPaths(ops) ==> Lookup(h, p) == Lookup(ByUser(h0, rounds, reached + 1), p)
  }

  /** The batch stops at operation `reached`: what was touched is copied, and the rest is as the user left it. */
  ghost predicate Stopping(
    ops: seq<PublishOperation>, h0: Host, rounds: seq<Edits>, copies: map<Path, Option<File>>, touched: seq<Path>,
    reached: nat, h: Host)
    requires reached <= |ops| && reached < |rounds|
  {
    && Copied(ops, h0, rounds, copies, touched, if reached < |ops| then reached + 1 else reached)
    && (forall p :: p in Begun(ops, reached) ==> p in touched)
    && forall p :: p !in touched ==> Lookup(h, p) == Lookup(ByUser(h0, rounds, reached + 1), p)
  }

  /** Every operation found its file as it was reviewed. */
  ghost predicate AllReady(ops: seq<PublishOperation>, h0: Host, rounds: seq<Edits>)
    requires |ops| <= |rounds|
  {
    forall j :: 0 <= j < |ops| ==> Ready(HostTree(ByUser(h0, rounds, j + 1)), ops[j])
  }

  /** The operation did not find its file as it was reviewed. */
  ghost predicate Blocked(ops: seq<PublishOperation>, h0: Host, rounds: seq<Edits>, j: nat)
    requires |ops| <= |rounds|
  {
    j < |ops| && !Ready(HostTree(ByUser(h0, rounds, j + 1)), ops[j])
  }

  lemma FinishedIsReviewed(ops: seq<PublishOperation>, h0: Host, rounds: seq<Edits>, h: Host)
    requires |rounds| == |ops| + 1 && Underway(ops, |ops|, h0, rounds, |ops| + 1, h)
    ensures ReviewedInTurn(ops, h0, rounds, |ops|, h) && AllReady(ops, h0, rounds)
  {
    AllBegun(ops);
    forall j | 0 <= j < |ops| ensures Ready(HostTree(ByUser(h0, rounds, j + 1)), ops[j]) {
      assert Standing(ops, j, h0, rounds, |ops| + 1, h);
    }
  }

  /** The batch goes on: the operations so far stand, and what was touched is copied. */
  ghost predicate GoingOn(
    ops: seq<PublishOperation>, i: nat, h0: Host, rounds: seq<Edits>, n: nat, copies: map<Path, Option<File>>, touched: seq<Path>,
    h: Host)
    requires i <= |ops| && i <= n <= |rounds|
  {
    && Underway(ops, i, h0, rounds, n, h) && Copied(ops, h0, rounds, copies, touched, i)
    && forall p :: p in Begun(ops, i) ==> p in touched
  }

  lemma GoesOnAmidEdits(
    ops: seq<PublishOperation>, i: nat, h0: Host, rounds: seq<Edits>, copies: map<Path, Option<File>>, touched: seq<Path>,
    before: Host, after: Host)
    requires i <= |ops| && i < |rounds| && DistinctPaths(ops) && |ops| <= |rounds|
    requires GoingOn(ops, i, h0, rounds, i, copies, touched, before) && after == Edited(before, rounds[i])
    ensures GoingOn(ops, i, h0, rounds, i + 1, copies, touched, after)
    ensures i < |ops| ==> Ready(HostTree(after), ops[i]) == !Blocked(ops, h0, rounds, i)
    ensures i == |ops| == |rounds| - 1 ==>
              && Stopping(ops, h0, rounds, copies, touched, i, after)
              && ReviewedInTurn(ops, h0, rounds, i, after) && AllReady(ops, h0, rounds)
  {
    UserEdits(ops, i, h0, rounds, before, after);
    if i < |ops| {
      AtItsTurn(ops, i, h0, rounds, after);
    } else if i == |rounds| - 1 {
      FinishedIsReviewed(ops, h0, rounds, after);
    }
  }

  /** The turn of one operation, with its edits made: it lands, or the batch stops. */
  lemma OneTurn(
    ops: seq<PublishOperation>, i: nat, h0: Host, rounds: seq<Edits>, copies: map<Path, Option<File>>, touched: seq<Path>,
    before: Host, outcome: Progress, after: Host, copies1: map<Path, Option<File>>, touched1: seq<Path>)
    requires i < |ops| && i + 1 < |rounds| && DistinctPaths(ops)
    requires GoingOn(ops, i, h0, rounds, i + 1, copies, touched, before)
    requires outcome == Untouched ==> after == before && copies1 == copies && touched1 == touched
    requires outcome != Untouched ==>
               && Ready(HostTree(before), ops[i]) && outcome.copy == Lookup(HostTree(before), ops[i].path)
               && copies1 == copies[ops[i].path := outcome.copy] && touched1 == touched + [ops[i].path]
    requires outcome.Completed? ==> Landed(HostTree(after), ops[i])
    requires forall q :: q != ops[i].path ==> Lookup(after, q) == Lookup(before, q)
    ensures outcome.Completed? ==> GoingOn(ops, i + 1, h0, rounds, i + 1, copies1, touched1, after)
    ensures !outcome.Completed? ==> Stopping(ops, h0, rounds, copies1, touched1, i, after)
  {
    if outcome != Untouched {
      CopyOne(ops, h0, rounds, copies, touched, i, before);
    } else {
      NextIsNew(ops, i);
    }
    if outcome.Completed? {
      OneMoreStands(ops, i, h0, rounds, before, after);
    }
  }

  /** Which operations have touched their files when the batch stops, and what was copied. */
  lemma TouchedInTurn(
    ops: seq<PublishOperation>, h0: Host, rounds: seq<Edits>, copies: map<Path, Option<File>>, touched: seq<Path>,
    reached: nat, h: Host, j: nat)
    requires reached <= |ops| && reached < |rounds| && DistinctPaths(ops) && j < |ops|
    requires Stopping(ops, h0, rounds, copies, touched, reached, h)
    ensures j < reached ==> ops[j].path in touched
    ensures ops[j].path in touched ==>
              && j <= reached && Ready(HostTree(ByUser(h0, rounds, j + 1)), ops[j])
              && copies[ops[j].path] == Lookup(HostTree(ByUser(h0, rounds, j + 1)), ops[j].path)
  {
    var n := if reached < |ops| then reached + 1 else reached;
    BegunMembers(ops, n);
    BegunMembers(ops, reached);
    if ops[j].path in touched {
      var i :| 0 <= i < n && ops[i].path == ops[j].path;
      assert i == j;
    }
  }

  lemma TouchedAreOperations(
    ops: seq<PublishOperation>, h0: Host, rounds: seq<Edits>, copies: map<Path, Option<File>>, touched: seq<Path>,
    reached: nat, h: Host)
    requires reached <= |ops| && reached < |rounds|
    requires Stopping(ops, h0, rounds, copies, touched, reached, h)
    ensures forall p :: p in touched ==> p in copies && p in OperationPaths(ops)
  {
    BegunWithin(ops, if reached < |ops| then reached + 1 else reached);
  }

  /** Restoring the touched files of a batch that stopped. */
  lemma RestoringPutsBack(
    ops: seq<PublishOperation>, h0: Host, rounds: seq<Edits>, copies: map<Path, Option<File>>, touched: seq<Path>,
    reached: nat, before: Host, unrestored: seq<Path>, after: Host)
    requires reached <= |ops| && reached < |rounds| && DistinctPaths(ops)
    requires Stopping(ops, h0, rounds, copies, touched, reached, before)
    requires forall p :: p in touched && p !in unrestored ==> p in copies && Lookup(HostTree(after), p) == copies[p]
    requires forall p :: p !in touched ==> Lookup(after, p) == Lookup(before, p)
    ensures RestoredInTurn(ops, h0, rounds, reached, unrestored, after)
    ensures ReviewedInTurn(ops, h0, rounds, reached, after)
  {
    TouchedAreOperations(ops, h0, rounds, copies, touched, reached, before);
    var last := ByUser(h0, rounds, reached + 1);
    assert forall p :: p !in touched ==> Lookup(after, p) == Lookup(last, p);
    forall j | 0 <= j < |ops|
      ensures ops[j].path !in unrestored ==>
                Lookup(HostTree(after), ops[j].path) == Lookup(HostTree(ByUser(h0, rounds, Earlier(j, reached) + 1)), ops[j].path)
      ensures ops[j].path in touched ==> j <= reached && Ready(HostTree(ByUser(h0, rounds, j + 1)), ops[j])
    {
      TouchedInTurn(ops, h0, rounds, copies, touched, reached, before, j);
      if ops[j].path !in touched {
        SameFileSameReading(after, last, ops[j]);
      }
    }
  }

  method HasRepeatedPath(ops: seq<PublishOperation>) returns (b: bool)
    ensures b <==> !DistinctPaths(ops)
  {
    var seen: set<Path> := {};
    for i := 0 to |ops|
      invariant forall p :: p in seen <==> exists j :: 0 <= j < i && ops[j].path == p
      invariant forall j, k :: 0 <= j < k < i ==> ops[j].path != ops[k].path
    {
      if ops[i].path in seen {
        return true;
      }
      seen := seen + {ops[i].path};
    }
    return false;
  }

  /** The paths of the first `n` operations, in their order. */
  ghost predicate Reported(ops: seq<PublishOperation>, n: nat, ps: seq<Path>) {
    |ps| == n <= |ops| && forall i :: 0 <= i < n ==> ps[i] == ops[i].path
  }

  /** The guarded part of a publication: every operation in turn, undone when one fails, while the user goes on editing:
      round `i` of the edits falls before operation `i`, the last one before the final record. */
  method CarryOutAmidEdits(host: HostWorkspace, ops: seq<PublishOperation>, plan: Plan, rounds: seq<Edits>, now: int)
    returns (r: Result<seq<Path>, PublishError>, ghost reached: nat)
    requires DistinctPaths(ops) && |rounds| == |ops| + 1
    requires forall i :: 0 <= i < |ops| ==> ops[i].Valid()
    modifies host
    ensures r != Err(Refused) && reached <= |ops|
    ensures r.Ok? ==> reached == |ops| && Underway(ops, |ops|, old(host.files), rounds, |ops| + 1, host.files)
    ensures r.Err? ==> RestoredInTurn(ops, old(host.files), rounds, reached, r.error.unrestored, host.files)
    ensures r.Err? ==> forall p :: p in r.error.unrestored ==> p in plan.restores
    ensures Reported(ops, reached, if r.Ok? then r.value else r.error.completed)
    ensures ReviewedInTurn(ops, old(host.files), rounds, reached, host.files)
    ensures r.Ok? ==> AllReady(ops, old(host.files), rounds)
    ensures plan == NO_FAULTS && r.Err? ==> Blocked(ops, old(host.files), rounds, reached)
  {
    ghost var h0 := host.files;
    var copies: map<Path, Option<File>>, touched: seq<Path>, completed: seq<Path> := map[], [], [];
    for i := 0 to |ops|
      invariant GoingOn(ops, i, h0, rounds, i, copies, touched, host.files)
      invariant Reported(ops, i, completed)
    {
      var op := ops[i];
      ghost var was := host.files;
      host.files := Edited(host.files, rounds[i]);
      ghost var before := host.files;
      GoesOnAmidEdits(ops, i, h0, rounds, copies, touched, was, before);
      var outcome := PublishOne(host, op, Lookup(plan.faults, op.path), now);
      ghost var copies0, touched0 := copies, touched;
      if outcome != Untouched {
        copies := copies[op.path := outcome.copy];
        touched := touched + [op.path];
      }
      OneTurn(ops, i, h0, rounds, copies0, touched0, before, outcome, host.files, copies, touched);
      if !outcome.Completed? {
        reached := i;
        r := Undo(host, copies, touched, completed, plan, now, ops, h0, rounds, reached);
        return;
      }
      completed := completed + [op.path];
    }
    reached := |ops|;
    ghost var was := host.files;
    host.files := Edited(host.files, rounds[|ops|]);
    GoesOnAmidEdits(ops, |ops|, h0, rounds, copies, touched, was, host.files);
    if plan.recordFails {
      r := Undo(host, copies, touched, completed, plan, now, ops, h0, rounds, reached);
      return;
    }
    return Ok(completed), reached;
  }

  /** What follows a failure: restore everything touched, and report. */
  method Undo(
    host: HostWorkspace, copies: map<Path, Option<File>>, touched: seq<Path>, completed: seq<Path>, plan: Plan, now: int,
    ghost ops: seq<PublishOperation>, ghost h0: Host, ghost rounds: seq<Edits>, ghost reached: nat)
    returns (r: Result<seq<Path>, PublishError>)
    requires reached <= |ops| && reached < |rounds| && DistinctPaths(ops)
    requires Stopping(ops, h0, rounds, copies, touched, reached, host.files)
    modifies host
    ensures r.Err? && r.error.Stopped? && r.error.completed == completed
    ensures RestoredInTurn(ops, h0, rounds, reached, r.error.unrestored, host.files)
    ensures ReviewedInTurn(ops, h0, rounds, reached, host.files)
    ensures forall p :: p in r.error.unrestored ==> p in plan.restores
  {
    ghost var before := host.files;
    TouchedAreOperations(ops, h0, rounds, copies, touched, reached, before);
    var restored, errors := RestoreTouched(host, copies, touched, plan.restores, now);
    RestoringPutsBack(ops, h0, rounds, copies, touched, reached, before, errors, host.files);
    return Err(Stopped(completed, restored, errors));
  }

  /** What a stopped batch destroys: at a path that was restored, exactly the edits the user made after the operation
      on it had had its turn. */
  lemma RestoreDestroysIff(
    ops: seq<PublishOperation>, h0: Host, rounds: seq<Edits>, reached: nat, unrestored: seq<Path>, h: Host, j: nat)
    requires reached < |rounds| && RestoredInTurn(ops, h0, rounds, reached, unrestored, h)
    requires j < |ops| && ops[j].path !in unrestored
    ensures var p := ops[j].path;
            Lookup(HostTree(h), p) != Lookup(HostTree(ByUser(h0, rounds, reached + 1)), p) <==>
              && j < reached
              && Lookup(HostTree(ByUser(h0, rounds, j + 1)), p) != Lookup(HostTree(ByUser(h0, rounds, reached + 1)), p)
    ensures !EditedBetween(rounds, j + 1, reached + 1, ops[j].path) ==>
              Lookup(HostTree(h), ops[j].path) == Lookup(HostTree(ByUser(h0, rounds, reached + 1)), ops[j].path)
  {
    if j < reached && !EditedBetween(rounds, j + 1, reached + 1, ops[j].path) {
      NoEditsNoChange(h0, rounds, j + 1, reached + 1, ops[j].path);
    }
  }

  lemma {:induction false} NoEditsNoChange(h0: Host, rounds: seq<Edits>, from: nat, to: nat, p: Path)
    requires from <= to <= |rounds| && !EditedBetween(rounds, from, to, p)
    ensures Lookup(HostTree(ByUser(h0, rounds, to)), p) == Lookup(HostTree(ByUser(h0, rounds, from)), p)
    ensures Lookup(ByUser(h0, rounds, to), p) == Lookup(ByUser(h0, rounds, from), p)
  {
    if from < to {
      NoEditsNoChange(h0, rounds, from, to - 1, p);
      EditedAt(ByUser(h0, rounds, to - 1), rounds[to - 1], p);
      HostTreeLookup(ByUser(h0, rounds, to), p);
      HostTreeLookup(ByUser(h0, rounds, to - 1), p);
    }
  }

  /** No host file at an operation's path was replaced or removed unless it was the reviewed one. */
  ghost predicate Reviewed(ops: seq<PublishOperation>, h0: Host, h: Host) {
    && (forall i :: 0 <= i < |ops| && Lookup(h, ops[i].path) != Lookup(h0, ops[i].path) ==> Ready(HostTree(h0), ops[i]))
    && forall p :: p !in OperationPaths(ops) ==> Lookup(h, p) == Lookup(h0, p)
  }

  function Quiet(n: nat): seq<Edits> {
    seq(n, i => map[])
  }

  lemma {:induction false} QuietUser(h0: Host, m: nat, n: nat)
    requires n <= m
    ensures ByUser(h0, Quiet(m), n) == h0
  {
    if n > 0 {
      QuietUser(h0, m, n - 1);
      assert Quiet(m)[n - 1] == map[];
    }
  }

  lemma QuietMeaning(ops: seq<PublishOperation>, h0: Host, reached: nat, h: Host, r: Result<seq<Path>, PublishError>)
    requires reached <= |ops| && ReviewedInTurn(ops, h0, Quiet(|ops| + 1), reached, h)
    requires r.Ok? ==> Underway(ops, |ops|, h0, Quiet(|ops| + 1), |ops| + 1, h)
    requires r.Err? ==> r.error.Stopped? && RestoredInTurn(ops, h0, Quiet(|ops| + 1), reached, r.error.unrestored, h)
    ensures Reviewed(ops, h0, h)
    ensures r.Ok? ==> forall i :: 0 <= i < |ops| ==> Ready(HostTree(h0), ops[i]) && Landed(HostTree(h), ops[i])
    ensures r.Err? ==> forall p :: p !in r.error.unrestored ==> Lookup(HostTree(h), p) == Lookup(HostTree(h0), p)
  {
    var rounds := Quiet(|ops| + 1);
    forall n: nat | n <= |ops| + 1 ensures ByUser(h0, rounds, n) == h0 {
      QuietUser(h0, |ops| + 1, n);
    }
    if r.Ok? {
      forall i | 0 <= i < |ops| ensures Ready(HostTree(h0), ops[i]) && Landed(HostTree(h), ops[i]) {
        assert Standing(ops, i, h0, rounds, |ops| + 1, h);
      }
    } else {
      forall p | p !in r.error.unrestored ensures Lookup(HostTree(h), p) == Lookup(HostTree(h0), p) {
        if p !in OperationPaths(ops) {
          HostTreeLookup(h, p);
          HostTreeLookup(h0, p);
        }
      }
    }
  }

  /** The guarded part of a publication, with nobody else at the host. */
  method CarryOut(host: HostWorkspace, ops: seq<PublishOperation>, plan: Plan, now: int)
    returns (r: Result<seq<Path>, PublishError>)
    requires DistinctPaths(ops)
    requires forall i :: 0 <= i < |ops| ==> ops[i].Valid()
    modifies host
    ensures r != Err(Refused)
    ensures if r.Ok? then Reported(ops, |ops|, r.value) else Reported(ops, |r.error.completed|, r.error.completed)
    ensures r.Ok? ==> forall i :: 0 <= i < |ops| ==>
                        Ready(HostTree(old(host.files)), ops[i]) && Landed(HostTree(host.files), ops[i])
    ensures Reviewed(ops, old(host.files), host.files)
    ensures r.Err? ==>
              && (forall p :: p !in r.error.unrestored ==>
                    Lookup(HostTree(host.files), p) == Lookup(HostTree(old(host.files)), p))
              && (forall p :: p in r.error.unrestored ==> p in plan.restores)
    ensures plan == NO_FAULTS && (forall i :: 0 <= i < |ops| ==> Ready(HostTree(old(host.files)), ops[i])) ==> r.Ok?
  {
    ghost var h0, reached := host.files, 0;
    var rounds := Quiet(|ops| + 1);
    forall n: nat | n <= |ops| + 1 ensures ByUser(h0, rounds, n) == h0 {
      QuietUser(h0, |ops| + 1, n);
    }
    r, reached := CarryOutAmidEdits(host, ops, plan, rounds, now);
    QuietMeaning(ops, h0, reached, host.files, r);
  }

  class WorkspaceBroker {
    const host: HostWorkspace
    const identity: string
    const neverPublish: set<Path>

    constructor (host: HostWorkspace, identity: string, neverPublish: set<Path>)
      ensures this.host == host && this.identity == identity && this.neverPublish == neverPublish
    {
      this.host, this.identity, this.neverPublish := host, identity, neverPublish;
    }

    /** Publish one batch all or nothing. Whatever happens, no host file is replaced or removed unless it was the
        reviewed one.

        On success every operation was reviewed against the host file it found and has landed, and
        nothing else changed. On failure, wherever it struck, the host is what it was before except at
        paths whose restore itself failed, and those are reported. */
    method Publish(m: Manifest, approved: set<Path>, plan: Plan, now: int) returns (r: Result<seq<Path>, PublishError>)
      requires forall i :: 0 <= i < |m.operations| ==> m.operations[i].Valid()
      modifies host
      ensures r == Err(Refused) <==> !Accepts(identity, neverPublish, m, approved)
      ensures r == Err(Refused) ==> host.files == old(host.files)
      ensures r.Ok? ==> |r.value| == |m.operations| && forall i :: 0 <= i < |r.value| ==> r.value[i] == m.operations[i].path
      ensures r.Err? && r.error.Stopped? ==> Reported(m.operations, |r.error.completed|, r.error.completed)
      ensures r.Ok? ==> forall i :: 0 <= i < |m.operations| ==>
                          Ready(HostTree(old(host.files)), m.operations[i]) && Landed(HostTree(host.files), m.operations[i])
      ensures Reviewed(m.operations, old(host.files), host.files)
      ensures r.Err? && r.error.Stopped? ==>
                && (forall p :: p !in r.error.unrestored ==>
                      Lookup(HostTree(host.files), p) == Lookup(HostTree(old(host.files)), p))
                && (forall p :: p in r.error.unrestored ==> p in plan.restores)
      ensures && Accepts(identity, neverPublish, m, approved)
              && plan == NO_FAULTS
              && (forall i :: 0 <= i < |m.operations| ==> Ready(HostTree(old(host.files)), m.operations[i]))
              ==> r.Ok?
    {
      if m.workspace != identity || |m.operations| > PUBLISH_BATCH_MAX_OPERATIONS {
        return Err(Refused);
      }
      var repeated := HasRepeatedPath(m.operations);
      if repeated || OperationPaths(m.operations) != approved || !(approved !! neverPublish)
         || TotalPayload(m.operations) > PUBLISH_BATCH_MAX_BYTES {
        return Err(Refused);
      }
      r := CarryOut(host, m.operations, plan, now);
    }
  }

  /** When every restore succeeds a failed batch leaves no trace: contents and modes are as before. */
  lemma NoFailedRestoreNoTrace(before: Tree, after: Tree, unrestored: seq<Path>, plan: Plan)
    requires forall p :: p !in unrestored ==> Lookup(after, p) == Lookup(before, p)
    requires forall p :: p in unrestored ==> p in plan.restores
    requires plan.restores == map[]
    ensures after == before
  {
    forall p ensures (p in after <==> p in before) && (p in after ==> after[p] == before[p]) {
      assert p !in unrestored;
      assert Lookup(after, p) == Lookup(before, p);
    }
  }

  /** The host tree overlaid with a manifest's operations; a file whose operation states no mode has the one in `left`. */
  function Overlay(t: Tree, ops: seq<PublishOperation>, left: Tree): Tree
    requires forall i :: 0 <= i < |ops| ==> ops[i].Valid()
  {
    if ops == [] then t else
      var op := ops[|ops| - 1];
      assert op.Valid();
      Put(Overlay(t, ops[..|ops| - 1], left), op.path,
          if op.operation == Delete then None else Some(File(op.content.value, ModeOf(op, left))))
  }

  function ModeOf(op: PublishOperation, left: Tree): nat {
    if op.stagedMode.Some? then op.stagedMode.value else if op.path in left then left[op.path].mode else PRIVATE_MODE
  }

  lemma {:induction false} OverlayAt(t: Tree, ops: seq<PublishOperation>, left: Tree, p: Path)
    requires DistinctPaths(ops) && forall i :: 0 <= i < |ops| ==> ops[i].Valid()
    ensures p !in OperationPaths(ops) ==> Lookup(Overlay(t, ops, left), p) == Lookup(t, p)
    ensures forall i :: 0 <= i < |ops| && ops[i].path == p ==>
              Lookup(Overlay(t, ops, left), p)
              == if ops[i].operation == Delete then None else Some(File(ops[i].content.value, ModeOf(ops[i], left)))
  {
    if ops != [] {
      var front, op := ops[..|ops| - 1], ops[|ops| - 1];
      OverlayAt(t, front, left, p);
      assert forall i :: 0 <= i < |front| ==> ops[i] == front[i] && ops[i].path != op.path;
      assert OperationPaths(ops) == OperationPaths(front) + {op.path} by {
        assert ops[|ops| - 1].path == op.path;
      }
    }
  }

  /** The published host tree is exactly the original overlaid with the manifest; only a mode that the manifest leaves
      open is not determined by it. */
  lemma PublishedTreeIsOverlay(before: Tree, after: Tree, ops: seq<PublishOperation>)
    requires DistinctPaths(ops) && forall i :: 0 <= i < |ops| ==> ops[i].Valid()
    requires forall i :: 0 <= i < |ops| ==> Landed(after, ops[i])
    requires forall p :: p !in OperationPaths(ops) ==> Lookup(after, p) == Lookup(before, p)
    ensures after == Overlay(before, ops, after)
  {
    forall p ensures Lookup(after, p) == Lookup(Overlay(before, ops, after), p) {
      OverlayAt(before, ops, after, p);
      if p in OperationPaths(ops) {
        var i :| 0 <= i < |ops| && ops[i].path == p;
        assert Landed(after, ops[i]);
      }
    }
    SameLookupsSameMap(after, Overlay(before, ops, after));
  }

  // ---- an edit that a restore destroys ----

  /** A batch that publishes `p` and then finds another file changed, while the user edits `p` in between. */
  function TwoOperations(p: Path, q: Path, v0: File, v1: File): seq<PublishOperation> {
    var base := Some(Version(Sha256(v0.content), v0.mode));
    [PublishOperation(p, Update, base, Some(Sha256(v1.content)), Some(v1.mode), Some(v1.content)),
     PublishOperation(q, Delete, base, None, None, None)]
  }

  function EditInBetween(p: Path, v2: File, now: int): seq<Edits> {
    [map[], map[p := Some(HostFile(v2, now))], map[]]
  }

  lemma UserOnly(p: Path, q: Path, v0: File, v1: File, v2: File, now: int)
    requires p != q
    ensures var h0: Host := map[p := HostFile(v0, now)];
            var ops, rounds := TwoOperations(p, q, v0, v1), EditInBetween(p, v2, now);
            && DistinctPaths(ops)
            && ByUser(h0, rounds, 1) == h0 && ByUser(h0, rounds, 2) == map[p := HostFile(v2, now)]
            && Ready(HostTree(ByUser(h0, rounds, 1)), ops[0]) && !Ready(HostTree(ByUser(h0, rounds, 2)), ops[1])
  {
    var h0: Host := map[p := HostFile(v0, now)];
    var rounds := EditInBetween(p, v2, now);
    assert ByUser(h0, rounds, 0) == h0;
    assert ByUser(h0, rounds, 1) == Edited(h0, map[]) == h0;
    assert ByUser(h0, rounds, 2) == Edited(h0, rounds[1]);
  }

  /** The user edits a file that the batch has already published; a later operation of the batch finds its file changed,
      the batch stops, and the restore writes the file of before the batch over the user's. */
  method EditIsRestoredAway(p: Path, q: Path, v0: File, v1: File, v2: File, now: int)
    returns (host: HostWorkspace, ghost user: Host)
    requires p != q
    ensures fresh(host) && Lookup(HostTree(host.files), p) == Some(v0)
    ensures Lookup(HostTree(user), p) == Some(v2)
  {
    host := new HostWorkspace(map[p := HostFile(v0, now)]);
    var ops, rounds := TwoOperations(p, q, v0, v1), EditInBetween(p, v2, now);
    ghost var h0 := host.files;
    UserOnly(p, q, v0, v1, v2, now);
    var r;
    ghost var reached;
    r, reached := CarryOutAmidEdits(host, ops, NO_FAULTS, rounds, now);
    assert ops[0].path == p;
    user := ByUser(h0, rounds, reached + 1);
  }
}
