/** The state volume: who it belongs to, and the baseline that survives a restart. */
module StateStore {
  import opened Common
  import opened Paths
  import opened Staging
  import opened Drift

  const STATE_SCHEMA: nat := 1

  /** The JSON document: files as (digest, size, mode) rows, conflicts as a list in path order. */
  datatype Record = Record(
    schema: nat,
    workspace: string,
    snapshotId: Option<Id>,
    files: map<Path, (Digest, nat, nat)>,
    signatures: map<Path, (nat, int)>,
    conflicts: seq<Conflict>)

  datatype Stored = Document(record: Record) | Unreadable

  ghost predicate Keyed(conflicts: map<Path, Conflict>) {
    forall p :: p in conflicts ==> conflicts[p].path == p
  }

  ghost function ConflictList(conflicts: map<Path, Conflict>, ps: seq<Path>, n: nat): seq<Conflict>
    requires n <= |ps|
    requires forall i :: 0 <= i < n ==> ps[i] in conflicts
  {
    if n == 0 then [] else ConflictList(conflicts, ps, n - 1) + [conflicts[ps[n - 1]]]
  }

  function ConflictTable(items: seq<Conflict>): map<Path, Conflict> {
    if items == [] then map[] else
      var last := items[|items| - 1];
      ConflictTable(items[..|items| - 1])[last.path := last]
  }

  lemma {:induction false} TableOfList(conflicts: map<Path, Conflict>, ps: seq<Path>, n: nat)
    requires n <= |ps| && Keyed(conflicts)
    requires forall i :: 0 <= i < n ==> ps[i] in conflicts
    ensures forall p :: Lookup(ConflictTable(ConflictList(conflicts, ps, n)), p)
                        == if p in Walked(ps, n) then Lookup(conflicts, p) else None
  {
    if n > 0 {
      TableOfList(conflicts, ps, n - 1);
      var front := ConflictList(conflicts, ps, n - 1);
      var items := ConflictList(conflicts, ps, n);
      assert items[..|items| - 1] == front;
      assert items[|items| - 1] == conflicts[ps[n - 1]];
    }
  }

  ghost predicate Encodes(r: Record, b: Baseline, workspace: string) {
    && r.schema == STATE_SCHEMA && r.workspace == workspace && r.snapshotId == Some(b.snapshot.id)
    && r.files == (map p | p in b.snapshot.files :: var e := b.snapshot.files[p]; (e.digest, e.size, e.mode))
    && r.signatures == (map p | p in b.snapshot.signatures :: var g := b.snapshot.signatures[p]; (g.size, g.mtime))
    && var ps := Sorted(b.conflicts.Keys);
       && (forall i :: 0 <= i < |ps| ==> ps[i] in b.conflicts)
       && r.conflicts == ConflictList(b.conflicts, ps, |ps|)
  }

  method Encode(b: Baseline, workspace: string) returns (r: Record)
    ensures Encodes(r, b, workspace)
  {
    var ps := SortPaths(b.conflicts.Keys);
    SortedMeaning(b.conflicts.Keys);
    assert forall i :: 0 <= i < |ps| ==> ps[i] in ps;
    var items: seq<Conflict> := [];
    for i := 0 to |ps|
      invariant items == ConflictList(b.conflicts, ps, i)
    {
      items := items + [b.conflicts[ps[i]]];
    }
    r := Record(
      STATE_SCHEMA, workspace, Some(b.snapshot.id),
      map p | p in b.snapshot.files :: var e := b.snapshot.files[p]; (e.digest, e.size, e.mode),
      map p | p in b.snapshot.signatures :: var g := b.snapshot.signatures[p]; (g.size, g.mtime),
      items);
  }

  /** `load`: anything unreadable, of another schema, or without a snapshot id counts as no baseline. */
  function Decode(s: Option<Stored>): Option<Baseline> {
    if s == None || s.value.Unreadable? || s.value.record.schema != STATE_SCHEMA || s.value.record.snapshotId == None then
      None
    else
      var r := s.value.record;
      Some(Baseline(
        Snapshot(
          r.snapshotId.value,
          map p | p in r.files :: Entry(r.files[p].0, r.files[p].1, r.files[p].2),
          map p | p in r.signatures :: Signature(r.signatures[p].0, r.signatures[p].1)),
        ConflictTable(r.conflicts)))
  }

  /** A saved baseline is read back as it was: versions, sizes, signatures, conflicts and identity. */
  lemma LoadUndoesSave(b: Baseline, workspace: string, r: Record)
    requires Keyed(b.conflicts) && Encodes(r, b, workspace)
    ensures Decode(Some(Document(r))) == Some(b)
  {
    var ps := Sorted(b.conflicts.Keys);
    TableOfList(b.conflicts, ps, |ps|);
    WalkIsComplete(b.conflicts.Keys);
    var table := ConflictTable(r.conflicts);
    forall p ensures (p in table <==> p in b.conflicts) && (p in table ==> table[p] == b.conflicts[p]) {
      assert Lookup(table, p) == if p in Walked(ps, |ps|) then Lookup(b.conflicts, p) else None;
    }
    assert table == b.conflicts;
    var loaded := Decode(Some(Document(r))).value.snapshot;
    assert loaded.files == b.snapshot.files;
    assert loaded.signatures == b.snapshot.signatures;
  }

  /** What counts as no baseline: no file, a file that cannot be read, another schema, no snapshot id. */
  lemma LoadsNothingIff(s: Option<Stored>)
    ensures Decode(s) == None <==>
              || s.None? || s.value == Unreadable
              || s.value.record.schema != 1 || s.value.record.snapshotId.None?
  {
  }

  /** What is read from any other record: its id, the versions and signatures as listed, and of the conflicts listed for
      one path the last. */
  lemma LoadMeaning(r: Record, p: Path)
    requires Decode(Some(Document(r))).Some?
    ensures var b := Decode(Some(Document(r))).value;
            && Some(b.snapshot.id) == r.snapshotId
            && Lookup(b.snapshot.files, p) == (if p in r.files then Some(Entry(r.files[p].0, r.files[p].1, r.files[p].2)) else None)
            && Lookup(b.snapshot.signatures, p) == (if p in r.signatures then Some(Signature(r.signatures[p].0, r.signatures[p].1)) else None)
            && (p in b.conflicts <==> exists i :: 0 <= i < |r.conflicts| && r.conflicts[i].path == p)
            && forall i :: 0 <= i < |r.conflicts| && LastFor(r.conflicts, p, i) ==> b.conflicts[p] == r.conflicts[i]
  {
    TablePaths(r.conflicts, p);
    forall i | 0 <= i < |r.conflicts| && LastFor(r.conflicts, p, i)
      ensures Lookup(ConflictTable(r.conflicts), p) == Some(r.conflicts[i])
    {
      LastOneCounts(r.conflicts, p, i);
    }
  }

  ghost predicate LastFor(items: seq<Conflict>, p: Path, i: nat)
    requires i < |items|
  {
    items[i].path == p && forall j :: i < j < |items| ==> items[j].path != p
  }

  lemma {:induction false} TablePaths(items: seq<Conflict>, p: Path)
    ensures p in ConflictTable(items) <==> exists i :: 0 <= i < |items| && items[i].path == p
  {
    if items != [] {
      var front, last := items[..|items| - 1], items[|items| - 1];
      TablePaths(front, p);
      if i :| 0 <= i < |items| && items[i].path == p {
        assert i < |front| ==> front[i].path == p;
      }
    }
  }

  lemma {:induction false} LastOneCounts(items: seq<Conflict>, p: Path, i: nat)
    requires i < |items| && LastFor(items, p, i)
    ensures Lookup(ConflictTable(items), p) == Some(items[i])
  {
    var front := items[..|items| - 1];
    if i < |front| {
      assert forall j :: 0 <= j < |front| ==> front[j] == items[j];
      LastOneCounts(front, p, i);
      assert items[|items| - 1].path != p;
    }
  }

  /** The identity file: whose state this is, if it can be read. */
  datatype Identity = Owner(workspace: string) | Garbled

  class StateVolume {
    var identity: Option<Identity>
    var baseline: Option<Stored>

    /** `claim`: true when the volume already held this workspace's state. No answer is the refusal, of another
        workspace's volume, of an unreadable identity, or of a volume that cannot be written. */
    method Claim(workspace: string, fails: bool) returns (r: Option<bool>)
      modifies this`identity
      ensures r == None <==> (old(identity).Some? && old(identity) != Some(Owner(workspace))) || (old(identity).None? && fails)
      ensures r != None ==> identity == Some(Owner(workspace)) && r == Some(old(identity).Some?)
      ensures r == None ==> identity == old(identity)
    {
      if identity == None {
        if fails {
          return None;
        }
        identity := Some(Owner(workspace));
        return Some(false);
      }
      if identity != Some(Owner(workspace)) {
        return None;
      }
      return Some(true);
    }

    /** `save` replaces the file atomically: a write that fails leaves the old baseline. */
    method Save(b: Baseline, workspace: string, fails: bool) returns (ok: bool)
      requires Keyed(b.conflicts)
      modifies this`baseline
      ensures ok == !fails
      ensures ok ==> Decode(baseline) == Some(b)
      ensures !ok ==> baseline == old(baseline)
    {
      if fails {
        return false;
      }
      var r := Encode(b, workspace);
      LoadUndoesSave(b, workspace, r);
      baseline := Some(Document(r));
      return true;
    }

    method ForgetBaseline()
      modifies this`baseline
      ensures baseline == None
    {
      baseline := None;
    }
  }
}
