/** Filling an empty staging volume from the host. */
module Seeding {
  import opened Common
  import opened Paths
  import opened Staging
  import opened Drift

  datatype SeedError = NotEmpty | TooLarge

  function SignaturesOf(host: Host): map<Path, Signature> {
    map p | p in host :: SignatureOf(host[p])
  }

  function SeedSnapshot(host: Host, id: Id): Snapshot {
    Snapshot(id, Visible(HostTree(host)), SignaturesOf(host))
  }

  /** What the first snapshot records of one host file. */
  lemma SeedRecords(host: Host, id: Id, p: Path)
    requires p in host
    ensures var s, f := SeedSnapshot(host, id), host[p];
            && p in s.files && s.files[p].digest == Sha256(f.file.content) && s.files[p].size == |f.file.content|
            && s.files[p].mode == f.file.mode
            && p in s.signatures && s.signatures[p].size == |f.file.content| && s.signatures[p].mtime == f.mtime
  {
  }

  /** The first `n` host files, as staged so far. */
  ghost predicate SeededUpTo(host: Host, ps: seq<Path>, n: nat, work: Tree, s: Snapshot)
    requires n <= |ps|
  {
    forall p ::
      && Lookup(work, p) == (if p in Walked(ps, n) then Lookup(HostTree(host), p) else None)
      && Lookup(s.files, p) == (if p in Walked(ps, n) then Lookup(Visible(HostTree(host)), p) else None)
      && Lookup(s.signatures, p) == (if p in Walked(ps, n) then Lookup(SignaturesOf(host), p) else None)
  }

  method SeedStaging(maxFiles: nat, maxBytes: nat, work: Volume, host: Host, id: Id)
    returns (r: Result<Snapshot, SeedError>)
    modifies work
    ensures r == Err(NotEmpty) <==> old(work.files) != map[]
    ensures r == Err(TooLarge) <==> old(work.files) == map[] && !WithinStagingLimits(host, maxFiles, maxBytes)
    ensures r.Ok? ==> work.files == HostTree(host) && r.value == SeedSnapshot(host, id)
    ensures r == Err(NotEmpty) ==> work.files == old(work.files)
    ensures forall p :: p in work.files ==> p in old(work.files) || p in host
  {
    if work.files != map[] {
      return Err(NotEmpty);
    }
    var ps := SortPaths(host.Keys);
    var s := Snapshot(id, map[], map[]);
    var total, files := 0, 0;
    for i := 0 to |ps|
      invariant files == i <= maxFiles
      invariant total == SizeAlong(host, ps, i) <= maxBytes
      invariant s.id == id
      invariant SeededUpTo(host, ps, i, work.files, s)
      invariant forall p :: p in work.files ==> p in host
    {
      var path := ps[i];
      WalkStep(host.Keys, i);
      var info := host[path];
      total := total + |info.file.content|;
      files := files + 1;
      if files > maxFiles || total > maxBytes {
        SizeGrows(host, ps, i + 1, |ps|);
        return Err(TooLarge);
      }
      work.files := work.files[path := info.file];
      s := Snapshot(id, s.files[path := EntryOf(info.file)], s.signatures[path := SignatureOf(info)]);
    }
    WalkIsComplete(host.Keys);
    SeedComplete(host, work.files, s, ps);
    return Ok(s);
  }

  lemma SeedComplete(host: Host, work: Tree, s: Snapshot, ps: seq<Path>)
    requires SeededUpTo(host, ps, |ps|, work, s) && Walked(ps, |ps|) == host.Keys
    ensures work == HostTree(host) && s == SeedSnapshot(host, s.id)
  {
    var seeded := SeedSnapshot(host, s.id);
    forall p
      ensures Lookup(work, p) == Lookup(HostTree(host), p)
      ensures Lookup(s.files, p) == Lookup(seeded.files, p)
      ensures Lookup(s.signatures, p) == Lookup(seeded.signatures, p)
    {
      assert Lookup(work, p) == if p in Walked(ps, |ps|) then Lookup(HostTree(host), p) else None;
    }
    SameLookupsSameMap(work, HostTree(host));
    SameLookupsSameMap(s.files, seeded.files);
    SameLookupsSameMap(s.signatures, seeded.signatures);
  }

  /** Freshly seeded staging has nothing pending. */
  lemma SeedHasNoChanges(host: Host, id: Id)
    ensures Changes(SeedSnapshot(host, id), Visible(HostTree(host))) == []
  {
    var s, l := SeedSnapshot(host, id), Visible(HostTree(host));
    PendingIsExact(s, l);
    FirstIsMember(Changes(s, l));
  }
}
