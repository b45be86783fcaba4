/** `update_base`: the base tree of the sandbox repository follows the publication baseline. */
module GitBase {
  import opened Common
  import opened GitTree

  datatype BaselineFile = BaselineFile(digest: Digest, mode: nat)

  datatype Known = Known(digest: Digest, blob: ObjectId)

  type Baseline = map<Route, BaselineFile>

  /** The blob of the content a digest stands for. */
  function BlobOf(d: Digest): ObjectId {
    Sha1(Blob, Symbols(d.preimage))
  }

  /** `_baseline_content`: what staging holds at the path, if it is the baseline's content. */
  function BaselineContent(work: map<Route, Bytes>, p: Route, d: Digest): (c: Option<Bytes>)
    ensures c.Some? <==> p in work && Sha256(work[p]) == d
    ensures c.Some? ==> c.value == work[p]
  {
    if p in work && Sha256(work[p]) == d then Some(work[p]) else None
  }

  /** The blob can be named: it was recorded for the same digest, or staging still holds the content. */
  predicate Available(known: map<Route, Known>, work: map<Route, Bytes>, p: Route, d: Digest) {
    (p in known && known[p].digest == d) || BaselineContent(work, p, d).Some?
  }

  function FilesOf(base: Baseline): map<Route, BaseFile> {
    map p | p in base :: BaseFile(base[p].mode, BlobOf(base[p].digest))
  }

  ghost predicate Remembers(known: map<Route, Known>, base: Baseline) {
    forall p :: Lookup(known, p) == if p in base then Some(Known(base[p].digest, BlobOf(base[p].digest))) else None
  }

  class SandboxGit {
    const repository: Repository
    var known: map<Route, Known>

    constructor (repository: Repository)
      ensures this.repository == repository && known == map[]
    {
      this.repository, known := repository, map[];
    }

    /** Every recorded blob is the blob of the recorded digest's content, and is in the store. */
    ghost predicate Valid()
      reads this, repository
    {
      && repository.Valid()
      && forall p :: p in known ==> known[p].blob == BlobOf(known[p].digest) && known[p].blob in repository.objects
    }

    /** Name the blob of every baseline file, writing those not recorded yet. */
    method NameBlobs(base: Baseline, work: map<Route, Bytes>) returns (blobs: Option<map<Route, ObjectId>>)
      requires Valid()
      modifies repository
      ensures Valid()
      ensures forall o :: o in old(repository.objects) ==> Lookup(repository.objects, o) == Lookup(old(repository.objects), o)
      ensures blobs.Some? <==> forall p :: p in base ==> Available(known, work, p, base[p].digest)
      ensures blobs.Some? ==> forall p :: p in base ==>
                p in blobs.value && blobs.value[p] == BlobOf(base[p].digest) && blobs.value[p] in repository.objects
    {
      var named: map<Route, ObjectId> := map[];
      var left := base.Keys;
      while left != {}
        invariant Valid() && left <= base.Keys
        invariant forall o :: o in old(repository.objects) ==> Lookup(repository.objects, o) == Lookup(old(repository.objects), o)
        invariant forall p :: p in base && p !in left ==>
                    && Available(known, work, p, base[p].digest)
                    && p in named && named[p] == BlobOf(base[p].digest) && named[p] in repository.objects
        decreases |left|
      {
        var path :| path in left;
        left := left - {path};
        var digest := base[path].digest;
        if path in known && known[path].digest == digest {
          named := named[path := known[path].blob];
          continue;
        }
        var content := BaselineContent(work, path, digest);
        if content.None? {
          return None;
        }
        var blob := repository.WriteObject(Blob, Symbols(content.value));
        named := named[path := blob];
      }
      return Some(named);
    }

    /** Move the base to a new baseline. When every file's content can be found the new tree reads back as exactly the
        baseline: its paths, its contents, and its execute bits; otherwise the old base stands. */
    method UpdateBase(base: Baseline, work: map<Route, Bytes>) returns (tree: Option<ObjectId>)
      requires Valid() && Writable(EntriesOf(FilesOf(base)))
      modifies this, repository
      ensures Valid()
      ensures tree.Some? <==> forall p :: p in base ==> Available(old(known), work, p, base[p].digest)
      ensures tree.None? ==> known == old(known)
      ensures tree.Some? ==> Remembers(known, base)
      ensures tree.Some? ==>
                && ReadTree(repository.objects, tree.value).Some?
                && forall p :: LeafAt(ReadTree(repository.objects, tree.value).value, p) ==
                               if p in base then Some(Leaf(GitMode(base[p].mode), BlobOf(base[p].digest))) else None
    {
      var blobs := NameBlobs(base, work);
      if blobs.None? {
        return None;
      }
      var files := map p | p in base :: BaseFile(base[p].mode, blobs.value[p]);
      assert files == FilesOf(base);
      var id := repository.WriteBaseTree(files);
      known := map p | p in base :: Known(base[p].digest, blobs.value[p]);
      return Some(id);
    }
  }
}
