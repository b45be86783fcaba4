/** The three-way rebase: bringing host changes made since the baseline into staging.

    For each path three versions are compared: the baseline (B), the host file now (H), and the
    staged file (S). */
module Drift {
  import opened Common
  import opened Paths
  import opened Staging

  datatype HostFile = HostFile(file: File, mtime: int)

  /** The user's workspace on the host: the publishable files only. */
  type Host = map<Path, HostFile>

  datatype Observed = Observed(entry: Entry, signature: Signature)

  type Sighting = map<Path, Observed>

  datatype Conflict = Conflict(
    path: Path, baseDigest: Option<Digest>, hostDigest: Option<Digest>, stagedDigest: Option<Digest>)

  datatype Baseline = Baseline(snapshot: Snapshot, conflicts: map<Path, Conflict>)

  datatype Report = Report(absorbed: seq<Path>, conflicts: seq<Path>, resolved: seq<Path>)
  {
    function Add(p: Path, kind: Kind): (r: Report)
    {
      match kind
      case Same => this
      case Absorbed => this.(absorbed := absorbed + [p])
      case Resolved => this.(resolved := resolved + [p])
      case Conflicting => this.(conflicts := conflicts + [p])
    }

    ghost predicate Lists(p: Path, kind: Kind) {
      && (p in absorbed <==> kind == Absorbed)
      && (p in resolved <==> kind == Resolved)
      && (p in conflicts <==> kind == Conflicting)
    }
  }

  datatype RebaseError = InvalidChoice | StagingLimit | InstallFailed(path: Path)

  /** The staging volume. */
  class Volume {
    var files: Tree

    constructor (initial: Tree)
      ensures files == initial
    {
      files := initial;
    }
  }

  function HostTree(host: Host): Tree {
    map p | p in host :: host[p].file
  }

  function SignatureOf(f: HostFile): Signature {
    Signature(|f.file.content|, f.mtime)
  }

  // ---- host_files ----

  /** A recorded signature that still matches stands for the recorded digest. */
  predicate Trusted(previous: Snapshot, p: Path, f: HostFile) {
    Lookup(previous.signatures, p) == Some(SignatureOf(f)) && p in previous.files
  }

  function Observe(previous: Snapshot, p: Path, f: HostFile): Observed {
    Observed(
      Entry(if Trusted(previous, p, f) then previous.files[p].digest else Sha256(f.file.content), |f.file.content|, f.file.mode),
      SignatureOf(f))
  }

  function Sightings(previous: Snapshot, host: Host): Sighting {
    map p | p in host :: Observe(previous, p, host[p])
  }

  /** A host file whose content changed under an unchanged signature. */
  ghost predicate Stale(previous: Snapshot, host: Host, p: Path) {
    p in host && Trusted(previous, p, host[p]) && previous.files[p].digest != Sha256(host[p].file.content)
  }

  function SizeAlong(host: Host, ps: seq<Path>, n: nat): nat
    requires n <= |ps|
  {
    if n == 0 then 0 else
      SizeAlong(host, ps, n - 1) + (if ps[n - 1] in host then |host[ps[n - 1]].file.content| else 0)
  }

  lemma {:induction false} SizeGrows(host: Host, ps: seq<Path>, m: nat, n: nat)
    requires m <= n <= |ps|
    ensures SizeAlong(host, ps, m) <= SizeAlong(host, ps, n)
  {
    if m < n {
      SizeGrows(host, ps, m, n - 1);
    }
  }

  ghost predicate WithinStagingLimits(host: Host, maxFiles: nat, maxBytes: nat) {
    var ps := Sorted(host.Keys);
    |ps| <= maxFiles && SizeAlong(host, ps, |ps|) <= maxBytes
  }

  method HostFiles(maxFiles: nat, maxBytes: nat, previous: Snapshot, host: Host)
    returns (r: Result<Sighting, RebaseError>)
    ensures r.Ok? <==> WithinStagingLimits(host, maxFiles, maxBytes)
    ensures r == if r.Ok? then Ok(Sightings(previous, host)) else Err(StagingLimit)
  {
    var ps := SortPaths(host.Keys);
    var result: Sighting, total, count := map[], 0, 0;
    for i := 0 to |ps|
      invariant count == i <= maxFiles
      invariant total == SizeAlong(host, ps, i) <= maxBytes
      invariant forall p :: p in result <==> p in Walked(ps, i)
      invariant forall p :: p in result ==> p in host && result[p] == Observe(previous, p, host[p])
    {
      var path := ps[i];
      WalkStep(host.Keys, i);
      var info := host[path];
      var digest: Digest;
      if Lookup(previous.signatures, path) == Some(SignatureOf(info)) && path in previous.files {
        digest := previous.files[path].digest;
      } else {
        digest := Sha256(info.file.content);
      }
      total := total + |info.file.content|;
      if count >= maxFiles || total > maxBytes {
        SizeGrows(host, ps, i + 1, |ps|);
        return Err(StagingLimit);
      }
      result := result[path := Observed(Entry(digest, |info.file.content|, info.file.mode), SignatureOf(info))];
      count := count + 1;
    }
    WalkIsComplete(host.Keys);
    assert result == Sightings(previous, host);
    return Ok(result);
  }

  /** What the listing reports of one file: size and mode as they are, size and time as its signature, and as its digest
      the recorded one if size and time are the recorded ones, else that of the content. */
  lemma SeenAt(previous: Snapshot, host: Host, p: Path)
    requires p in host
    ensures var f, o := host[p], Sightings(previous, host)[p];
            && o.entry.size == |f.file.content| && o.entry.mode == f.file.mode
            && o.signature.size == |f.file.content| && o.signature.mtime == f.mtime
            && o.entry.digest ==
               if && p in previous.files && p in previous.signatures
                  && previous.signatures[p].size == |f.file.content| && previous.signatures[p].mtime == f.mtime
               then previous.files[p].digest else Sha256(f.file.content)
  {
    assert Sightings(previous, host)[p] == Observe(previous, p, host[p]);
  }

  /** The incremental listing equals the full re-hash exactly when no file is stale. */
  lemma ListingExactUnlessStale(previous: Snapshot, host: Host)
    ensures (forall p :: p in host ==> Sightings(previous, host)[p].entry.digest == Sha256(host[p].file.content))
            <==> (forall p :: !Stale(previous, host, p))
  {
    if forall p :: p in host ==> Sightings(previous, host)[p].entry.digest == Sha256(host[p].file.content) {
      forall p ensures !Stale(previous, host, p) {
        if p in host { assert Sightings(previous, host)[p].entry.digest == Sha256(host[p].file.content); }
      }
    }
    if forall p :: !Stale(previous, host, p) {
      forall p | p in host ensures Sightings(previous, host)[p].entry.digest == Sha256(host[p].file.content) {
        assert !Stale(previous, host, p);
      }
    }
  }

  // ---- rebase ----

  datatype Kind = Same | Absorbed | Resolved | Conflicting

  /** What the loop decides for one path. */
  datatype Decision = Decision(kind: Kind, adopt: bool, install: bool, open: bool)

  /** Everything one rebase looks at. */
  datatype Situation = Situation(
    baseline: Baseline, seen: Sighting, host: Host, staged: Tree, keep: set<Path>, take: set<Path>, faults: set<Path>)
  {
    function B(p: Path): Option<Version> {
      VersionIn(baseline.snapshot.files, p)
    }

    function H(p: Path): Option<Version> {
      if p in seen then Some(VersionOfEntry(seen[p].entry)) else None
    }

    function S(p: Path): Option<Version> {
      VersionOf(staged, p)
    }

    /** `_install` re-hashes what it copies and refuses a file that is not the one compared. */
    predicate Installable(p: Path) {
      p !in faults && (p in seen ==> p in host && Sha256(host[p].file.content) == seen[p].entry.digest)
    }

    ghost predicate WellFormed() {
      && seen.Keys == host.Keys
      && (forall p :: p in seen ==>
            && seen[p].entry.mode == host[p].file.mode
            && seen[p].entry.size == |host[p].file.content|
            && seen[p].signature == SignatureOf(host[p]))
      && keep + take <= baseline.conflicts.Keys
      && keep !! take
    }

    function Decide(p: Path): Decision {
      if p in take then Decision(Resolved, true, true, false)
      else if p in keep then Decision(Resolved, true, false, false)
      else if H(p) == B(p) then
        Decision(if p in baseline.conflicts then Resolved else Same, false, false, false)
      else if S(p) == H(p) then Decision(Absorbed, true, false, false)
      else if S(p) == B(p) && Installable(p) then Decision(Absorbed, true, true, false)
      else Decision(Conflicting, false, false, true)
    }

    /** What the path's row of every table holds before the loop reaches it. */
    function Before(p: Path): Row {
      RowOf(baseline.snapshot, baseline.conflicts, staged, p)
    }

    /** What it holds afterwards. */
    function After(p: Path): Row {
      var d, now, was := Decide(p), Lookup(seen, p), Before(p);
      Row(
        if d.adopt then EntrySeen(now) else was.entry,
        if d.adopt || (H(p) == B(p) && now.Some?) then SignatureSeen(now) else was.signature,
        if d.open then Some(ConflictAt(p)) else None,
        if d.install then Lookup(HostTree(host), p) else was.file)
    }

    function ConflictAt(p: Path): Conflict {
      ConflictOf(p, B(p), H(p), S(p))
    }

    /** The outcome of a rebase that was not interrupted. */
    ghost predicate Rebased(next: Baseline, files: Tree, report: Report, nextId: Id) {
      && (forall p :: RowOf(next.snapshot, next.conflicts, files, p) == After(p))
      && (forall p :: report.Lists(p, Decide(p).kind))
      && next.snapshot.id == (if report.absorbed != [] || report.resolved != [] then nextId else baseline.snapshot.id)
    }

    /** The staging volume after a rebase that stopped part way: some installs done, others not. */
    ghost predicate PartlyInstalled(files: Tree) {
      forall p :: Lookup(files, p) == Lookup(staged, p)
                  || (Decide(p).install && Lookup(files, p) == After(p).file)
    }
  }

  /** One path's row across the baseline tables, the open conflicts, and the staged files. */
  datatype Row = Row(entry: Option<Entry>, signature: Option<Signature>, conflict: Option<Conflict>, file: Option<File>)

  function RowOf(s: Snapshot, conflicts: map<Path, Conflict>, files: Tree, p: Path): Row {
    Row(Lookup(s.files, p), Lookup(s.signatures, p), Lookup(conflicts, p), Lookup(files, p))
  }

  function EntrySeen(now: Option<Observed>): Option<Entry> {
    if now.Some? then Some(now.value.entry) else None
  }

  function SignatureSeen(now: Option<Observed>): Option<Signature> {
    if now.Some? then Some(now.value.signature) else None
  }

  /** The inner `adopt`: the baseline takes the host's version of one path, or drops the path. */
  function Adopt(s: Snapshot, p: Path, now: Option<Observed>): Snapshot {
    Snapshot(s.id, Put(s.files, p, EntrySeen(now)), Put(s.signatures, p, SignatureSeen(now)))
  }

  lemma PutRow(s: Snapshot, conflicts: map<Path, Conflict>, files: Tree, path: Path, row: Row)
    ensures forall p ::
              RowOf(Snapshot(s.id, Put(s.files, path, row.entry), Put(s.signatures, path, row.signature)),
                    Put(conflicts, path, row.conflict), Put(files, path, row.file), p)
              == if p == path then row else RowOf(s, conflicts, files, p)
  {
    PutThenLookup(s.files, path, row.entry);
    PutThenLookup(s.signatures, path, row.signature);
    PutThenLookup(conflicts, path, row.conflict);
    PutThenLookup(files, path, row.file);
  }

  /** The situation a rebase meets when it lists the host through the recorded signatures. */
  function Facing(baseline: Baseline, host: Host, staged: Tree, keep: set<Path>, take: set<Path>, faults: set<Path>): Situation {
    Situation(baseline, Sightings(baseline.snapshot, host), host, staged, keep, take, faults)
  }

  function DigestOf(v: Option<Version>): Option<Digest> {
    match v case Some(x) => Some(x.digest) case None => None
  }

  /** `_conflict` */
  function ConflictOf(p: Path, base: Option<Version>, host: Option<Version>, staged: Option<Version>): Conflict {
    Conflict(p, DigestOf(base), DigestOf(host), DigestOf(staged))
  }

  /** `_install`: make the staged file the host file, or remove it. */
  method Install(work: Volume, p: Path, f: Option<File>)
    modifies work
    ensures work.files == Put(old(work.files), p, f)
  {
    match f
    case None => work.files := work.files - {p};
    case Some(h) => work.files := work.files[p := h];
  }

  /** What one round of the loop must do: the path's row of every table moves to its next value. */
  ghost predicate Advances(
    facing: Situation, path: Path, tables0: Snapshot, conflicts0: map<Path, Conflict>, files0: Tree,
    kind: Kind, tables: Snapshot, conflicts: map<Path, Conflict>, files: Tree)
  {
    var row := facing.After(path);
    && kind == facing.Decide(path).kind
    && tables == Snapshot(tables0.id, Put(tables0.files, path, row.entry), Put(tables0.signatures, path, row.signature))
    && conflicts == Put(conflicts0, path, row.conflict)
    && files == Put(files0, path, row.file)
  }

  /** One round of the loop. No kind is returned when the user's `take_host` cannot be carried out. */
  method RebasePath(facing: Situation, tables0: Snapshot, conflicts0: map<Path, Conflict>, work: Volume, path: Path)
    returns (kind: Option<Kind>, tables: Snapshot, conflicts: map<Path, Conflict>)
    requires RowOf(tables0, conflicts0, work.files, path) == facing.Before(path)
    modifies work
    ensures kind == None <==> path in facing.take && !facing.Installable(path)
    ensures kind == None ==> tables == tables0 && conflicts == conflicts0 && work.files == old(work.files)
    ensures kind.Some? ==>
              Advances(facing, path, tables0, conflicts0, old(work.files), kind.value, tables, conflicts, work.files)
  {
    tables, conflicts := tables0, conflicts0;
    var now := Lookup(facing.seen, path);
    if path in facing.take {
      if !facing.Installable(path) {
        return None, tables, conflicts;
      }
      Install(work, path, Lookup(HostTree(facing.host), path));
      tables, conflicts, kind := Adopt(tables, path, now), Put(conflicts, path, None), Some(Resolved);
    } else if path in facing.keep {
      PutBack(work.files, path);
      tables, conflicts, kind := Adopt(tables, path, now), Put(conflicts, path, None), Some(Resolved);
    } else {
      var merged;
      merged, tables, conflicts := MergePath(facing, tables, conflicts, work, path);
      kind := Some(merged);
    }
  }

  /** The three-way comparison of a path the user made no choice for. */
  method MergePath(facing: Situation, tables0: Snapshot, conflicts0: map<Path, Conflict>, work: Volume, path: Path)
    returns (kind: Kind, tables: Snapshot, conflicts: map<Path, Conflict>)
    requires RowOf(tables0, conflicts0, work.files, path) == facing.Before(path)
    requires path !in facing.keep + facing.take
    modifies work
    ensures Advances(facing, path, tables0, conflicts0, old(work.files), kind, tables, conflicts, work.files)
  {
    PutBack(tables0.files, path);
    PutBack(tables0.signatures, path);
    PutBack(work.files, path);
    tables, conflicts := tables0, conflicts0;
    var now := Lookup(facing.seen, path);
    var base, hostEntry, stagedEntry := VersionIn(tables.files, path), facing.H(path), VersionOf(facing.staged, path);
    assert base == facing.B(path);
    if hostEntry == base {
      if now.Some? {
        tables := tables.(signatures := Put(tables.signatures, path, SignatureSeen(now)));
      }
      kind := if path in conflicts then Resolved else Same;
      conflicts := Put(conflicts, path, None);
    } else if stagedEntry == hostEntry {
      tables, conflicts, kind := Adopt(tables, path, now), Put(conflicts, path, None), Absorbed;
    } else if stagedEntry == base && facing.Installable(path) {
      Install(work, path, Lookup(HostTree(facing.host), path));
      tables, conflicts, kind := Adopt(tables, path, now), Put(conflicts, path, None), Absorbed;
    } else {
      conflicts := Put(conflicts, path, Some(ConflictOf(path, base, hostEntry, stagedEntry)));
      kind := Conflicting;
    }
  }

  /** A path that appears nowhere keeps its (empty) row. */
  lemma UnvisitedIsSame(facing: Situation, p: Path)
    requires facing.keep + facing.take <= facing.baseline.conflicts.Keys
    requires p !in facing.seen && p !in facing.baseline.snapshot.files && p !in facing.baseline.conflicts
    ensures facing.After(p) == facing.Before(p) && facing.Decide(p).kind == Same
  {
  }

  /** The loop's progress: the visited paths hold their next rows, the others their first. */
  ghost predicate Progress(
    facing: Situation, done: set<Path>, tables: Snapshot, conflicts: map<Path, Conflict>, files: Tree, report: Report)
  {
    && (forall p :: RowOf(tables, conflicts, files, p) == if p in done then facing.After(p) else facing.Before(p))
    && (forall p :: report.Lists(p, if p in done then facing.Decide(p).kind else Same))
    && tables.id == facing.baseline.snapshot.id
  }

  lemma ProgressStep(
    facing: Situation, done: set<Path>, path: Path,
    tables0: Snapshot, conflicts0: map<Path, Conflict>, files0: Tree, report: Report,
    kind: Kind, tables: Snapshot, conflicts: map<Path, Conflict>, files: Tree)
    requires path !in done
    requires Progress(facing, done, tables0, conflicts0, files0, report)
    requires Advances(facing, path, tables0, conflicts0, files0, kind, tables, conflicts, files)
    ensures Progress(facing, done + {path}, tables, conflicts, files, report.Add(path, kind))
  {
    PutRow(tables0, conflicts0, files0, path, facing.After(path));
    forall p ensures report.Add(path, kind).Lists(p, if p in done + {path} then facing.Decide(p).kind else Same) {
      assert report.Lists(p, if p in done then facing.Decide(p).kind else Same);
    }
  }

  lemma ProgressDone(
    facing: Situation, all: set<Path>, tables: Snapshot, conflicts: map<Path, Conflict>, files: Tree, report: Report, nextId: Id)
    requires facing.keep + facing.take <= facing.baseline.conflicts.Keys
    requires all == facing.seen.Keys + facing.baseline.snapshot.files.Keys + facing.baseline.conflicts.Keys
    requires Progress(facing, all, tables, conflicts, files, report)
    ensures var id := if report.absorbed != [] || report.resolved != [] then nextId else tables.id;
            facing.Rebased(Baseline(tables.(id := id), conflicts), files, report, nextId)
  {
    var id := if report.absorbed != [] || report.resolved != [] then nextId else tables.id;
    forall p
      ensures RowOf(tables.(id := id), conflicts, files, p) == facing.After(p) && report.Lists(p, facing.Decide(p).kind)
    {
      if p !in all { UnvisitedIsSame(facing, p); }
      assert report.Lists(p, if p in all then facing.Decide(p).kind else Same);
      assert RowOf(tables, conflicts, files, p) == RowOf(tables.(id := id), conflicts, files, p);
    }
  }

  lemma ProgressStopped(
    facing: Situation, done: set<Path>, tables: Snapshot, conflicts: map<Path, Conflict>, files: Tree, report: Report)
    requires Progress(facing, done, tables, conflicts, files, report)
    ensures facing.PartlyInstalled(files)
  {
    forall p ensures Lookup(files, p) == Lookup(facing.staged, p)
                     || (facing.Decide(p).install && Lookup(files, p) == facing.After(p).file) {
      assert RowOf(tables, conflicts, files, p).file == Lookup(files, p);
    }
  }

  /** A report lists its paths in the order of the walk, each once. */
  ghost predicate InPathOrder(r: Report) {
    Ascending(r.absorbed) && Ascending(r.conflicts) && Ascending(r.resolved)
  }

  lemma AddKeepsOrder(facing: Situation, all: set<Path>, n: nat, report: Report, kind: Kind)
    requires n < |Sorted(all)| && InPathOrder(report)
    requires forall p :: report.Lists(p, if p in Walked(Sorted(all), n) then facing.Decide(p).kind else Same)
    ensures InPathOrder(report.Add(Sorted(all)[n], kind))
  {
    var ps := Sorted(all);
    SortedMeaning(all);
    WalkedMembers(ps, n);
    forall q | q in report.absorbed || q in report.conflicts || q in report.resolved ensures Before(q, ps[n]) {
      assert report.Lists(q, if q in Walked(ps, n) then facing.Decide(q).kind else Same);
      assert q in ps[..n];
    }
    AppendAscends(report.absorbed, ps[n]);
    AppendAscends(report.conflicts, ps[n]);
    AppendAscends(report.resolved, ps[n]);
  }

  lemma AppendAscends(qs: seq<Path>, p: Path)
    requires Ascending(qs) && forall q :: q in qs ==> Before(q, p)
    ensures Ascending(qs + [p])
  {
  }

  /** The loop over every path of the host, the baseline and the open conflicts. */
  method RebaseAll(facing: Situation, work: Volume, nextId: Id) returns (r: Result<(Baseline, Report), RebaseError>)
    requires work.files == facing.staged
    requires facing.keep + facing.take <= facing.baseline.conflicts.Keys
    modifies work
    ensures r.Ok? ==> (forall p :: p in facing.take ==> facing.Installable(p))
                      && facing.Rebased(r.value.0, work.files, r.value.1, nextId) && InPathOrder(r.value.1)
    ensures r.Err? ==> && r.error.InstallFailed? && facing.PartlyInstalled(work.files)
                       && r.error.path in facing.take && !facing.Installable(r.error.path)
  {
    var tables, conflicts := facing.baseline.snapshot, facing.baseline.conflicts;
    var report := Report([], [], []);
    var all := facing.seen.Keys + tables.files.Keys + conflicts.Keys;
    var paths := SortPaths(all);
    for i := 0 to |paths|
      invariant forall p :: p in Walked(paths, i) && p in facing.take ==> facing.Installable(p)
      invariant Progress(facing, Walked(paths, i), tables, conflicts, work.files, report)
      invariant InPathOrder(report)
    {
      var path := paths[i];
      WalkStep(all, i);
      ghost var tables0, conflicts0, files0 := tables, conflicts, work.files;
      assert RowOf(tables, conflicts, work.files, path) == facing.Before(path);
      var kind;
      kind, tables, conflicts := RebasePath(facing, tables, conflicts, work, path);
      if kind == None {
        ProgressStopped(facing, Walked(paths, i), tables, conflicts, work.files, report);
        return Err(InstallFailed(path));
      }
      ProgressStep(facing, Walked(paths, i), path, tables0, conflicts0, files0, report, kind.value, tables, conflicts, work.files);
      AddKeepsOrder(facing, all, i, report, kind.value);
      report := report.Add(path, kind.value);
    }
    WalkIsComplete(all);
    ProgressDone(facing, all, tables, conflicts, work.files, report, nextId);
    var id := if report.absorbed != [] || report.resolved != [] then nextId else tables.id;
    return Ok((Baseline(tables.(id := id), conflicts), report));
  }

  method Rebase(
    maxFiles: nat, maxBytes: nat, baseline: Baseline, host: Host, work: Volume,
    keep: set<Path>, take: set<Path>, faults: set<Path>, nextId: Id)
    returns (r: Result<(Baseline, Report), RebaseError>)
    modifies work
    ensures r == Err(InvalidChoice) <==> !(keep + take <= baseline.conflicts.Keys && keep !! take)
    ensures r == Err(StagingLimit) <==>
            r != Err(InvalidChoice) && !WithinStagingLimits(host, maxFiles, maxBytes)
    ensures r == Err(InvalidChoice) || r == Err(StagingLimit) ==> work.files == old(work.files)
    ensures var facing := Facing(baseline, host, old(work.files), keep, take, faults);
            && (r.Err? && r.error.InstallFailed? ==>
                  && facing.WellFormed() && facing.PartlyInstalled(work.files)
                  && r.error.path in take && !facing.Installable(r.error.path))
            && (r.Ok? ==>
                  && facing.WellFormed() && (forall p :: p in take ==> facing.Installable(p))
                  && facing.Rebased(r.value.0, work.files, r.value.1, nextId) && InPathOrder(r.value.1))
  {
    if !(keep + take <= baseline.conflicts.Keys && keep !! take) {
      return Err(InvalidChoice);
    }
    var listed := HostFiles(maxFiles, maxBytes, baseline.snapshot, host);
    if listed.Err? {
      return Err(StagingLimit);
    }
    r := RebaseAll(Situation(baseline, listed.value, host, work.files, keep, take, faults), work, nextId);
  }
}
