/** What travels between the executor and the desktop: one reviewed batch, and its receipt. */
module Publication {
  import opened Common
  import opened Paths
  import opened Staging

  const MAX_PUBLISH_BATCHES: nat := 2_000

  /** One host file change. Text and base64 payloads are both just the bytes to publish. */
  datatype PublishOperation = PublishOperation(
    path: Path,
    operation: Operation,
    base: Option<Version>,
    stagedDigest: Option<Digest>,
    stagedMode: Option<nat>,
    content: Option<Bytes>)
  {
    /** The constructor's own checks. */
    predicate Valid() {
      if operation == Delete then stagedDigest == None && stagedMode == None && content == None
      else (operation == Create ==> base == None) && content.Some? && stagedDigest == Some(Sha256(content.value))
    }

    function PayloadBytes(): nat {
      match content case Some(b) => |b| case None => 0
    }
  }

  datatype Manifest = Manifest(
    workspace: string, source: Id, operations: seq<PublishOperation>, batchIndex: nat, batchCount: nat)
  {
    function HasMoreBatches(): bool {
      batchIndex < batchCount
    }
  }

  function OperationPaths(ops: seq<PublishOperation>): set<Path> {
    set i | 0 <= i < |ops| :: ops[i].path
  }

  ghost predicate DistinctPaths(ops: seq<PublishOperation>) {
    forall i, j :: 0 <= i < j < |ops| ==> ops[i].path != ops[j].path
  }

  function TotalPayload(ops: seq<PublishOperation>): nat {
    if ops == [] then 0 else ops[0].PayloadBytes() + TotalPayload(ops[1..])
  }

  /** What reached the host for one path: a manifest operation without its content. */
  datatype PublishedOperation = PublishedOperation(
    path: Path, operation: Operation, stagedDigest: Option<Digest>, stagedMode: Option<nat>)

  datatype Receipt = Receipt(workspace: string, source: Id, operations: seq<PublishedOperation>)

  function ReceiptFor(m: Manifest): Receipt {
    Receipt(m.workspace, m.source,
            seq(|m.operations|, i requires 0 <= i < |m.operations| =>
              var op := m.operations[i];
              PublishedOperation(op.path, op.operation, op.stagedDigest, op.stagedMode)))
  }

  // ---- advance_published_staging ----

  /** Staging still holds what the operation published. */
  predicate StillStaged(l: Listing, op: PublishedOperation) {
    if op.operation == Delete then op.path !in l
    else && op.path in l
         && Some(l[op.path].digest) == op.stagedDigest
         && (op.stagedMode == None || op.stagedMode == Some(l[op.path].mode))
  }

  /** The paths of the first `n` operations of a receipt. */
  ghost function Acknowledged(ops: seq<PublishedOperation>, n: nat): set<Path>
    requires n <= |ops|
  {
    if n == 0 then {} else Acknowledged(ops, n - 1) + {ops[n - 1].path}
  }

  ghost predicate Advanced(s: Snapshot, l: Listing, paths: set<Path>, next: Snapshot, nextId: Id) {
    && next.id == nextId
    && next.signatures == s.signatures
    && forall p :: Lookup(next.files, p) == if p in paths then Lookup(l, p) else Lookup(s.files, p)
  }

  /** The baseline moves to the staged version of exactly the acknowledged paths, or, when staging has
      moved on from any of them, not at all. */
  method AdvancePublishedStaging(l: Listing, s: Snapshot, ops: seq<PublishedOperation>, nextId: Id)
    returns (r: Result<Snapshot, Path>)
    ensures r.Ok? <==> forall i :: 0 <= i < |ops| ==> StillStaged(l, ops[i])
    ensures r.Ok? ==> Advanced(s, l, Acknowledged(ops, |ops|), r.value, nextId)
  {
    var files := s.files;
    for i := 0 to |ops|
      invariant forall j :: 0 <= j < i ==> StillStaged(l, ops[j])
      invariant forall p :: Lookup(files, p) == if p in Acknowledged(ops, i) then Lookup(l, p) else Lookup(s.files, p)
    {
      var op := ops[i];
      if !StillStaged(l, op) {
        return Err(op.path);
      }
      PutThenLookup(files, op.path, Lookup(l, op.path));
      files := Put(files, op.path, Lookup(l, op.path));
    }
    return Ok(Snapshot(nextId, files, s.signatures));
  }

  lemma {:induction false} AcknowledgedMembers(ops: seq<PublishedOperation>, n: nat)
    requires n <= |ops|
    ensures forall p :: p in Acknowledged(ops, n) <==> exists i :: 0 <= i < n && ops[i].path == p
  {
    if n > 0 {
      AcknowledgedMembers(ops, n - 1);
    }
  }

  /** A receipt speaks of exactly the manifest's paths. */
  lemma ReceiptCoversManifest(m: Manifest)
    ensures var ops := ReceiptFor(m).operations; Acknowledged(ops, |ops|) == OperationPaths(m.operations)
  {
    var ops := ReceiptFor(m).operations;
    AcknowledgedMembers(ops, |ops|);
    forall p ensures p in Acknowledged(ops, |ops|) <==> p in OperationPaths(m.operations) {
      if p in Acknowledged(ops, |ops|) {
        var i :| 0 <= i < |ops| && ops[i].path == p;
        assert m.operations[i].path == p;
      }
      if p in OperationPaths(m.operations) {
        var i :| 0 <= i < |m.operations| && m.operations[i].path == p;
        assert ops[i].path == p;
      }
    }
  }
}
