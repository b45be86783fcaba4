/** The digest cache behind `visible_files`: a stat signature stands for unchanged content, except for files
    changed too recently to tell. */
module HashCache {
  import opened Common
  import opened Paths
  import opened Staging

  const RACY_WINDOW_NS: int := 250_000_000

  datatype Ino = Ino(device: nat, number: nat)

  datatype Inode = Inode(content: Bytes, mode: nat, mtime: int, ctime: int)

  datatype Disk = Disk(inodes: map<Ino, Inode>, names: map<Path, Ino>)

  predicate Linked(d: Disk) {
    forall p :: p in d.names ==> d.names[p] in d.inodes
  }

  function NodeAt(d: Disk, p: Path): Inode
    requires Linked(d) && p in d.names
  {
    d.inodes[d.names[p]]
  }

  datatype StatSignature = StatSignature(ino: Ino, size: nat, mtime: int, ctime: int)

  datatype CacheEntry = CacheEntry(signature: StatSignature, digest: Digest, observed: int)

  type Cache = map<Path, CacheEntry>

  function SignatureAt(d: Disk, p: Path): StatSignature
    requires Linked(d) && p in d.names
  {
    var node := NodeAt(d, p);
    StatSignature(d.names[p], |node.content|, node.mtime, node.ctime)
  }

  /** The file had been left alone for the whole window when it was hashed. */
  predicate Settled(e: CacheEntry) {
    var s := e.signature;
    (if s.mtime < s.ctime then s.ctime else s.mtime) + RACY_WINDOW_NS <= e.observed
  }

  /** `_trusted` */
  function Trusted(e: Option<CacheEntry>, signature: StatSignature): Option<Digest> {
    if e.None? || e.value.signature != signature then None
    else if Settled(e.value) then Some(e.value.digest) else None
  }

  /** Re-hash every file. */
  function FullListing(d: Disk): Listing
    requires Linked(d)
  {
    map p | p in d.names :: EntryOf(File(NodeAt(d, p).content, NodeAt(d, p).mode))
  }

  function CachedEntry(d: Disk, cache: Cache, p: Path): Entry
    requires Linked(d) && p in d.names
  {
    var node := NodeAt(d, p);
    match Trusted(Lookup(cache, p), SignatureAt(d, p))
    case Some(digest) => Entry(digest, |node.content|, node.mode)
    case None => Entry(Sha256(node.content), |node.content|, node.mode)
  }

  /** What a walk reports, trusting its cache. */
  function CachedListing(d: Disk, cache: Cache): Listing
    requires Linked(d)
  {
    map p | p in d.names :: CachedEntry(d, cache, p)
  }

  /** What a walk between two clock readings leaves in the cache for one file. */
  predicate EntryAfterWalk(d: Disk, before: Cache, p: Path, e: CacheEntry, from: int, to: int)
    requires Linked(d) && p in d.names
  {
    if Trusted(Lookup(before, p), SignatureAt(d, p)).Some? then e == before[p]
    else e.signature == SignatureAt(d, p) && e.digest == Sha256(NodeAt(d, p).content) && from <= e.observed <= to
  }

  ghost predicate CacheAfterWalk(d: Disk, before: Cache, after: Cache, from: int, to: int)
    requires Linked(d)
  {
    forall p :: p in after ==> p in d.names && EntryAfterWalk(d, before, p, after[p], from, to)
  }

  /** When a walk reuses a digest: exactly when device, inode, size and both times are those of the cache entry, and both
      times lay a quarter of a second behind the clock reading of that entry. Size and mode are always as they are. */
  lemma ReusedIff(d: Disk, cache: Cache, p: Path)
    requires Linked(d) && p in d.names
    ensures var node := d.inodes[d.names[p]];
            var shown := CachedListing(d, cache)[p];
            && shown.size == |node.content| && shown.mode == node.mode
            && shown.digest ==
               if && p in cache && cache[p].signature.ino == d.names[p] && cache[p].signature.size == |node.content|
                  && cache[p].signature.mtime == node.mtime && cache[p].signature.ctime == node.ctime
                  && node.mtime + 250_000_000 <= cache[p].observed && node.ctime + 250_000_000 <= cache[p].observed
               then cache[p].digest else Sha256(node.content)
  {
    assert CachedListing(d, cache)[p] == CachedEntry(d, cache, p);
  }

  class Walker {
    var cache: Cache

    constructor ()
      ensures cache == map[]
    {
      cache := map[];
    }

    /** `visible_files`; `clock(i)` is the i-th reading of the clock. */
    method VisibleFiles(d: Disk, clock: nat -> int, ghost from: int, ghost to: int) returns (listing: Listing)
      requires Linked(d)
      requires forall i: nat :: from <= clock(i) <= to
      modifies this
      ensures CacheAfterWalk(d, old(cache), cache, from, to)
      ensures cache.Keys == d.names.Keys
      ensures listing == CachedListing(d, old(cache))
    {
      var ps := SortPaths(d.names.Keys);
      var next: Cache := map[];
      listing := map[];
      var readings: nat := 0;
      for i := 0 to |ps|
        invariant cache == old(cache)
        invariant forall p :: p in next <==> p in Walked(ps, i)
        invariant forall p :: p in listing <==> p in Walked(ps, i)
        invariant forall p :: p in Walked(ps, i) ==> p in d.names
        invariant forall p :: p in next ==> EntryAfterWalk(d, cache, p, next[p], from, to)
        invariant forall p :: p in listing ==> listing[p] == CachedEntry(d, cache, p)
      {
        var relative := ps[i];
        WalkStep(d.names.Keys, i);
        var signature := SignatureAt(d, relative);
        var cached := Lookup(cache, relative);
        var digest := Trusted(cached, signature);
        if digest.None? {
          var observed := clock(readings);
          readings := readings + 1;
          digest := Some(Sha256(NodeAt(d, relative).content));
          cached := Some(CacheEntry(signature, digest.value, observed));
        }
        next := next[relative := cached.value];
        listing := listing[relative := Entry(digest.value, signature.size, NodeAt(d, relative).mode)];
      }
      WalkIsComplete(d.names.Keys);
      cache := next;
    }
  }

  // ---- every interleaving of writes and walks ----

  datatype State = State(now: int, disk: Disk, cache: Cache)

  /** A coarse time stamp taken at `now` on a file system that ticks every `grain` nanoseconds. */
  predicate StampedAt(stamp: int, now: int, grain: int) {
    stamp <= now < stamp + grain
  }

  /** The last tick of the clock is such a stamp, and with a tick of one nanosecond the only one. */
  lemma LastTickIsAStamp(now: int, grain: int)
    requires grain > 0
    ensures StampedAt(now - now % grain, now, grain)
    ensures forall stamp :: StampedAt(stamp, now, 1) <==> stamp == now
  {
  }

  /** Create or change a file: content, mode, and modification time are the writer's choice, the change time is not. */
  predicate Writes(s: State, t: State, ino: Ino, node: Inode, grain: int) {
    && StampedAt(node.ctime, s.now, grain)
    && t == s.(disk := s.disk.(inodes := s.disk.inodes[ino := node]))
  }

  datatype Move =
    | Wait(until: int)
    | Write(ino: Ino, node: Inode)
    | Rename(names: map<Path, Ino>)
    | Walk(cache: Cache)

  ghost predicate Step(s: State, t: State, move: Move, grain: int) {
    && Linked(s.disk)
    && match move
       case Wait(until) => s.now <= until && t == s.(now := until)
       case Write(ino, node) => Writes(s, t, ino, node, grain)
       case Rename(names) => t == s.(disk := s.disk.(names := names)) && Linked(t.disk)
       case Walk(cache) => t == s.(now := t.now, cache := cache) && s.now <= t.now &&
                           CacheAfterWalk(s.disk, s.cache, cache, s.now, t.now)
  }

  ghost predicate IsRun(states: seq<State>, moves: seq<Move>, grain: int) {
    && |states| == |moves| + 1
    && Linked(states[0].disk) && states[0].cache == map[]
    && forall i :: 0 <= i < |moves| ==> Step(states[i], states[i + 1], moves[i], grain)
  }

  /** A settled entry still tells the truth about its file if the change time is unchanged. */
  predicate TellsTheTruth(s: State, e: CacheEntry) {
    Settled(e) ==>
      && e.observed <= s.now
      && (e.signature.ino in s.disk.inodes && s.disk.inodes[e.signature.ino].ctime == e.signature.ctime ==>
            e.digest == Sha256(s.disk.inodes[e.signature.ino].content))
  }

  ghost predicate CacheSound(s: State) {
    && Linked(s.disk)
    && forall p :: p in s.cache ==> TellsTheTruth(s, s.cache[p])
  }

  /** A write after an entry was observed cannot bring its change time back. */
  lemma WriteKeepsTruth(s: State, t: State, ino: Ino, node: Inode, grain: int, e: CacheEntry)
    requires grain <= RACY_WINDOW_NS && Writes(s, t, ino, node, grain) && TellsTheTruth(s, e)
    ensures TellsTheTruth(t, e)
  {
    if Settled(e) && e.signature.ino == ino {
      assert node.ctime > e.signature.ctime;
    }
  }

  lemma StepKeepsCacheSound(s: State, t: State, move: Move, grain: int)
    requires grain <= RACY_WINDOW_NS && CacheSound(s) && Step(s, t, move, grain)
    ensures CacheSound(t)
  {
    forall p | p in t.cache ensures TellsTheTruth(t, t.cache[p]) {
      match move
      case Write(ino, node) => WriteKeepsTruth(s, t, ino, node, grain, s.cache[p]);
      case Walk(_) => assert EntryAfterWalk(s.disk, s.cache, p, t.cache[p], s.now, t.now);
      case _ =>
    }
  }

  lemma {:induction false} RunKeepsCacheSound(states: seq<State>, moves: seq<Move>, grain: int, n: nat)
    requires grain <= RACY_WINDOW_NS && IsRun(states, moves, grain) && n < |states|
    ensures CacheSound(states[n])
  {
    if n > 0 {
      RunKeepsCacheSound(states, moves, grain, n - 1);
      StepKeepsCacheSound(states[n - 1], states[n], moves[n - 1], grain);
    }
  }

  lemma SoundCacheListsExactly(s: State)
    requires CacheSound(s)
    ensures ListsExactly(s)
  {
    forall p | p in s.disk.names ensures CachedListing(s.disk, s.cache)[p] == FullListing(s.disk)[p] {
      if p in s.cache { assert TellsTheTruth(s, s.cache[p]); }
    }
  }

  predicate ListsExactly(s: State) {
    Linked(s.disk) && CachedListing(s.disk, s.cache) == FullListing(s.disk)
  }

  /** In every state a run can reach, a cached walk and a full one agree. */
  ghost predicate AlwaysExact(grain: int) {
    forall states: seq<State>, moves, n: nat | IsRun(states, moves, grain) && n < |states| :: ListsExactly(states[n])
  }

  /** On a coarser file system: write, wait out the window, walk, and rewrite the file with equal size and time
      inside the same tick. */
  lemma TooCoarseAClockGoesUnnoticed(grain: int) returns (states: seq<State>, moves: seq<Move>)
    requires grain > RACY_WINDOW_NS
    ensures IsRun(states, moves, grain)
    ensures !ListsExactly(states[|moves|])
  {
    var p, ino := Path(['a']), Ino(0, 0);
    var first, second := Inode([1], 0x1A4, 0, 0), Inode([2], 0x1A4, 0, 0);
    var names := map[p := ino];
    var seen := map[p := CacheEntry(StatSignature(ino, 1, 0, 0), Sha256([1]), RACY_WINDOW_NS)];
    var s0 := State(0, Disk(map[ino := first], names), map[]);
    var s1 := s0.(now := RACY_WINDOW_NS);
    var s2 := s1.(cache := seen);
    var s3 := s2.(disk := Disk(map[ino := second], names));
    states := [s0, s1, s2, s3];
    moves := [Wait(RACY_WINDOW_NS), Walk(seen), Write(ino, second)];
    assert s2.disk.inodes[ino := second] == map[ino := second];
    assert Step(s0, s1, moves[0], grain) && Step(s1, s2, moves[1], grain) && Step(s2, s3, moves[2], grain);
    assert CachedListing(s3.disk, s3.cache)[p].digest == Sha256([1]);
    assert FullListing(s3.disk)[p].digest == Sha256([2]);
  }

  /** The window is exactly what the cache needs: it never reports a stale digest if and only if file time stamps
      are no coarser than the window. */
  lemma ExactIffWindowCoversGrain(grain: int)
    ensures AlwaysExact(grain) <==> grain <= RACY_WINDOW_NS
  {
    if grain <= RACY_WINDOW_NS {
      forall states: seq<State>, moves, n: nat | IsRun(states, moves, grain) && n < |states|
        ensures ListsExactly(states[n])
      {
        RunKeepsCacheSound(states, moves, grain, n);
        SoundCacheListsExactly(states[n]);
      }
    } else {
      var states, moves := TooCoarseAClockGoesUnnoticed(grain);
      assert |moves| < |states|;
    }
  }
}
