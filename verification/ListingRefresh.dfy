/** The walk behind `visible_files` over a directory tree, and the refresh that replaces it after a mutation
    whose paths are known. */
module ListingRefresh {
  import opened Common
  import opened Staging

  type Name = string

  /** A path as its segments. */
  type Route = seq<Name>

  datatype Node = Regular(file: File) | Link | Directory | Special

  type FileSystem = map<Route, Node>

  type Hides = Name -> bool

  datatype Walked = Walked(files: map<Route, Entry>, links: set<Route>)

  /** Segments that name nothing: `a//b` and `a/./b` are both `a/b`. */
  predicate Empty(n: Name) {
    n == "" || n == "."
  }

  predicate IsNormal(raw: Route) {
    forall i :: 0 <= i < |raw| ==> !Empty(raw[i])
  }

  function Normalize(raw: Route): (r: Route)
    ensures IsNormal(r)
    ensures IsNormal(raw) ==> r == raw
  {
    if raw == [] then [] else
      (if Empty(raw[0]) then [] else [raw[0]]) + Normalize(raw[1..])
  }

  /** Normalizing drops exactly the segments "" and "." and keeps the others in their order. */
  lemma {:induction false} NormalizeMeaning(a: Route, b: Route, n: Name)
    ensures Normalize([n]) == if n == "" || n == "." then [] else [n]
    ensures Normalize(a + b) == Normalize(a) + Normalize(b)
  {
    if a == [] {
      assert a + b == b;
    } else {
      assert (a + b)[1..] == a[1..] + b;
      NormalizeMeaning(a[1..], b, n);
    }
  }

  function Parent(p: Route): Route
    requires p != []
  {
    p[..|p| - 1]
  }

  function Last(p: Route): Name
    requires p != []
  {
    p[|p| - 1]
  }

  ghost predicate WellFormed(fs: FileSystem) {
    && [] in fs && fs[[]] == Directory
    && forall p :: p in fs ==> IsNormal(p) && (p != [] ==> Parent(p) in fs && fs[Parent(p)] == Directory)
  }

  predicate AnyHidden(hides: Hides, p: Route) {
    exists i :: 0 <= i < |p| && hides(p[i])
  }

  /** The regular file or link a listing may show at a path. */
  function ShownAt(fs: FileSystem, hides: Hides, p: Route): Option<Node> {
    if p in fs && !AnyHidden(hides, p) && (fs[p].Regular? || fs[p].Link?) then Some(fs[p]) else None
  }

  /** Exactly the visible regular files, and exactly the visible links. */
  ghost predicate Lists(fs: FileSystem, hides: Hides, w: Walked) {
    forall p ::
      && Lookup(w.files, p) == (if ShownAt(fs, hides, p).Some? && fs[p].Regular? then Some(EntryOf(fs[p].file)) else None)
      && (p in w.links <==> ShownAt(fs, hides, p) == Some(Link))
  }

  // ---- the full walk ----

  function Children(fs: FileSystem, directory: Route): set<Route> {
    set p | p in fs && p != [] && Parent(p) == directory
  }

  lemma HiddenFromParent(hides: Hides, p: Route)
    requires p != []
    ensures AnyHidden(hides, p) <==> AnyHidden(hides, Parent(p)) || hides(Last(p))
  {
    if AnyHidden(hides, Parent(p)) {
      var i :| 0 <= i < |Parent(p)| && hides(Parent(p)[i]);
      assert hides(p[i]);
    }
    if AnyHidden(hides, p) {
      var i :| 0 <= i < |p| && hides(p[i]);
      assert i < |p| - 1 ==> hides(Parent(p)[i]);
    }
  }

  predicate VisibleDirectory(fs: FileSystem, hides: Hides, p: Route) {
    p in fs && fs[p] == Directory && !AnyHidden(hides, p)
  }

  /** What has been listed is what lies directly in the directories read so far. */
  ghost predicate ListsUnder(fs: FileSystem, hides: Hides, done: set<Route>, w: Walked) {
    && (forall p :: p in w.files <==> p in fs && p != [] && Parent(p) in done && !hides(Last(p)) && fs[p].Regular?)
    && (forall p :: p in w.files ==> w.files[p] == EntryOf(fs[p].file))
    && (forall p :: p in w.links <==> p in fs && p != [] && Parent(p) in done && !hides(Last(p)) && fs[p].Link?)
  }

  ghost predicate Reached(fs: FileSystem, hides: Hides, done: set<Route>, pending: set<Route>) {
    && (forall p :: p in done || p in pending ==> VisibleDirectory(fs, hides, p) && (p != [] ==> Parent(p) in done))
    && done !! pending
    && ([] in done || [] in pending)
    && forall p :: p in fs && p != [] && Parent(p) in done && fs[p] == Directory && !hides(Last(p)) ==> p in done || p in pending
  }

  lemma {:induction false} EveryDirectoryIsRead(fs: FileSystem, hides: Hides, done: set<Route>, p: Route)
    requires WellFormed(fs) && Reached(fs, hides, done, {}) && VisibleDirectory(fs, hides, p)
    ensures p in done
    decreases |p|
  {
    if p != [] {
      HiddenFromParent(hides, p);
      EveryDirectoryIsRead(fs, hides, done, Parent(p));
    }
  }

  lemma ReadEverywhereListsAll(fs: FileSystem, hides: Hides, done: set<Route>, w: Walked)
    requires WellFormed(fs) && Reached(fs, hides, done, {}) && ListsUnder(fs, hides, done, w)
    ensures Lists(fs, hides, w)
  {
    forall p
      ensures Lookup(w.files, p) == (if ShownAt(fs, hides, p).Some? && fs[p].Regular? then Some(EntryOf(fs[p].file)) else None)
      ensures p in w.links <==> ShownAt(fs, hides, p) == Some(Link)
    {
      if p in fs && p != [] {
        HiddenFromParent(hides, p);
        if !AnyHidden(hides, Parent(p)) {
          EveryDirectoryIsRead(fs, hides, done, Parent(p));
        }
      }
    }
  }

  /** Read one directory: list its visible files and links, and return its visible subdirectories. */
  method ScanDirectory(fs: FileSystem, hides: Hides, directory: Route, w: Walked, ghost done: set<Route>)
    returns (next: Walked, below: set<Route>)
    requires ListsUnder(fs, hides, done, w) && directory !in done
    ensures ListsUnder(fs, hides, done + {directory}, next)
    ensures forall p :: p in below <==> p in fs && p != [] && Parent(p) == directory && fs[p] == Directory && !hides(Last(p))
  {
    next, below := w, {};
    var left := Children(fs, directory);
    while left != {}
      invariant left <= Children(fs, directory)
      invariant forall p :: p in next.files <==> p in w.files || (p in Children(fs, directory) && p !in left && !hides(Last(p)) && fs[p].Regular?)
      invariant forall p :: p in next.files ==> p in fs && fs[p].Regular? && next.files[p] == EntryOf(fs[p].file)
      invariant forall p :: p in next.links <==> p in w.links || (p in Children(fs, directory) && p !in left && !hides(Last(p)) && fs[p].Link?)
      invariant forall p :: p in below <==> p in Children(fs, directory) && p !in left && fs[p] == Directory && !hides(Last(p))
      decreases |left|
    {
      var entry :| entry in left;
      left := left - {entry};
      if hides(Last(entry)) {
        continue;
      }
      match fs[entry]
      case Link => next := next.(links := next.links + {entry});
      case Directory => below := below + {entry};
      case Regular(file) => next := next.(files := next.files[entry := EntryOf(file)]);
      case Special =>
    }
  }

  lemma MoreRead(fs: FileSystem, hides: Hides, done: set<Route>, pending: set<Route>, directory: Route, below: set<Route>)
    requires WellFormed(fs) && Reached(fs, hides, done, pending) && directory in pending
    requires forall p :: p in below <==> p in fs && p != [] && Parent(p) == directory && fs[p] == Directory && !hides(Last(p))
    ensures Reached(fs, hides, done + {directory}, pending - {directory} + below)
  {
    forall p | p in below
      ensures VisibleDirectory(fs, hides, p) && p !in done && p != directory
    {
      HiddenFromParent(hides, p);
    }
  }

  /** `visible_files`: a walk with a stack of directories still to read. */
  method VisibleFiles(fs: FileSystem, hides: Hides) returns (w: Walked)
    requires WellFormed(fs)
    ensures Lists(fs, hides, w)
  {
    w := Walked(map[], {});
    var pending: set<Route> := {[]};
    ghost var done: set<Route> := {};
    while pending != {}
      invariant Reached(fs, hides, done, pending)
      invariant ListsUnder(fs, hides, done, w)
      decreases fs.Keys - done
    {
      var directory :| directory in pending;
      var below;
      w, below := ScanDirectory(fs, hides, directory, w, done);
      MoreRead(fs, hides, done, pending, directory, below);
      pending := pending - {directory} + below;
      done := done + {directory};
    }
    ReadEverywhereListsAll(fs, hides, done, w);
  }

  // ---- the refresh ----

  /** `lstat` through the raw path; the file tools refuse paths that lead through a link. */
  function Stat(fs: FileSystem, raw: Route): Option<Node> {
    Lookup(fs, Normalize(raw))
  }

  /** One path's turn in `refresh_visible_files`: note that the listing is updated under the path as it was given. */
  function RefreshOne(fs: FileSystem, hides: Hides, w: Walked, raw: Route): Walked {
    var found := if AnyHidden(hides, raw) then None else Stat(fs, raw);
    Walked(
      Put(w.files, raw, if found.Some? && found.value.Regular? then Some(EntryOf(found.value.file)) else None),
      if found == Some(Link) then w.links + {raw} else w.links - {raw})
  }

  function Refreshed(fs: FileSystem, hides: Hides, base: Walked, raws: seq<Route>): Walked {
    if raws == [] then base else
      RefreshOne(fs, hides, Refreshed(fs, hides, base, raws[..|raws| - 1]), raws[|raws| - 1])
  }

  method RefreshVisibleFiles(fs: FileSystem, hides: Hides, base: Walked, raws: seq<Route>) returns (w: Walked)
    ensures w == Refreshed(fs, hides, base, raws)
  {
    w := base;
    for n := 0 to |raws|
      invariant w == Refreshed(fs, hides, base, raws[..n])
    {
      var raw := raws[n];
      assert raws[..n + 1][..n] == raws[..n];
      var files, links := w.files - {raw}, w.links - {raw};
      if !AnyHidden(hides, raw) {
        match Stat(fs, raw)
        case Some(Regular(file)) => files := w.files[raw := EntryOf(file)];
        case Some(Link) => links := w.links + {raw};
        case _ =>
      }
      w := Walked(files, links);
    }
    assert raws[..|raws|] == raws;
  }

  /** Nothing a listing shows has changed but at the given paths. */
  ghost predicate SameElsewhere(before: FileSystem, after: FileSystem, hides: Hides, raws: seq<Route>) {
    forall p :: ShownAt(before, hides, p) != ShownAt(after, hides, p) ==> exists i :: 0 <= i < |raws| && Normalize(raws[i]) == p
  }

  /** The listing is right for the new files at the refreshed paths and for the old ones elsewhere. */
  lemma {:induction false} RefreshedAt(before: FileSystem, after: FileSystem, hides: Hides, base: Walked, raws: seq<Route>, p: Route)
    requires Lists(before, hides, base) && forall i :: 0 <= i < |raws| ==> IsNormal(raws[i])
    ensures var shown := if p in raws then ShownAt(after, hides, p) else ShownAt(before, hides, p);
            var w := Refreshed(after, hides, base, raws);
            && Lookup(w.files, p) == (if shown.Some? && shown.value.Regular? then Some(EntryOf(shown.value.file)) else None)
            && (p in w.links <==> shown == Some(Link))
  {
    if raws != [] {
      var front, raw := raws[..|raws| - 1], raws[|raws| - 1];
      RefreshedAt(before, after, hides, base, front, p);
      assert p in raws <==> p in front || p == raw;
    }
  }

  /** Refreshing exactly the normalized paths that changed gives what a full walk would: the same files, the same links. */
  lemma RefreshIsAFullWalk(before: FileSystem, after: FileSystem, hides: Hides, base: Walked, raws: seq<Route>)
    requires Lists(before, hides, base) && SameElsewhere(before, after, hides, raws)
    requires forall i :: 0 <= i < |raws| ==> IsNormal(raws[i])
    ensures Lists(after, hides, Refreshed(after, hides, base, raws))
  {
    var w := Refreshed(after, hides, base, raws);
    forall p
      ensures Lookup(w.files, p) == (if ShownAt(after, hides, p).Some? && after[p].Regular? then Some(EntryOf(after[p].file)) else None)
      ensures p in w.links <==> ShownAt(after, hides, p) == Some(Link)
    {
      RefreshedAt(before, after, hides, base, raws, p);
    }
  }

  /** After a write or edit of one visible file the refreshed listing is right exactly when the caller spelled the
      path in its normal form: `write` and `edit` pass their path on as given. */
  lemma RefreshOfOneWrittenFileIff(before: FileSystem, after: FileSystem, hides: Hides, base: Walked, raw: Route)
    requires WellFormed(after) && Lists(before, hides, base) && SameElsewhere(before, after, hides, [raw])
    requires !AnyHidden(hides, raw) && Stat(after, raw).Some? && Stat(after, raw).value.Regular?
    ensures Lists(after, hides, Refreshed(after, hides, base, [raw])) <==> IsNormal(raw)
  {
    if IsNormal(raw) {
      RefreshIsAFullWalk(before, after, hides, base, [raw]);
    } else {
      var w := Refreshed(after, hides, base, [raw]);
      assert [raw][..0] == [];
      assert raw in w.files && raw !in after;
      assert Lookup(w.files, raw).Some? && ShownAt(after, hides, raw).None?;
    }
  }
}
