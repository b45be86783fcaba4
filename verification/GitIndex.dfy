/** `_write_index`: a version-2 git index, and the reader it must satisfy. */
module GitIndex {
  import opened Common
  import opened ByteOrder

  const WORD := 0x1_0000_0000

  type word = n: nat | n < WORD

  /** Ten 32-bit words of stat data (the seventh is the mode), a 20-byte object name, and a path. */
  datatype Record = Record(words: seq<word>, digest: Bytes, path: Bytes)

  predicate WellFormed(r: Record) {
    |r.words| == 10 && |r.digest| == 20 && 0 !in r.path
  }

  // ---- writing ----

  function Word(n: word): (b: Bytes)
    ensures |b| == 4
  {
    [(n / 0x100_0000) as byte, (n / 0x1_0000 % 0x100) as byte, (n / 0x100 % 0x100) as byte, (n % 0x100) as byte]
  }

  function HalfWord(n: nat): (b: Bytes)
    requires n < 0x1_0000
    ensures |b| == 2
  {
    [(n / 0x100) as byte, (n % 0x100) as byte]
  }

  function Words(ws: seq<word>): (b: Bytes)
    ensures |b| == 4 * |ws|
  {
    if ws == [] then [] else Word(ws[0]) + Words(ws[1..])
  }

  function Flags(path: Bytes): nat {
    if |path| < 0xFFF then |path| else 0xFFF
  }

  /** One to eight NULs, up to a multiple of eight. */
  function Padding(path: Bytes): (n: nat)
    ensures 1 <= n <= 8 && (62 + |path| + n) % 8 == 0
  {
    8 - (62 + |path|) % 8
  }

  function Zeros(n: nat): Bytes {
    seq(n, _ => 0)
  }

  function Encode(r: Record): (b: Bytes)
    requires WellFormed(r)
    ensures |b| % 8 == 0
  {
    Words(r.words) + r.digest + HalfWord(Flags(r.path)) + (r.path + Zeros(Padding(r.path)))
  }

  function EncodeAll(rs: seq<Record>): Bytes
    requires forall r :: r in rs ==> WellFormed(r)
  {
    if rs == [] then [] else Encode(rs[0]) + EncodeAll(rs[1..])
  }

  /** "DIRC", version 2, the number of records. */
  function Header(count: word): (b: Bytes)
    ensures |b| == 12
  {
    [68, 73, 82, 67] + Word(2) + Word(count)
  }

  // ---- reading ----

  function ReadWord(b: Bytes): word
    requires |b| >= 4
  {
    b[0] as nat * 0x100_0000 + b[1] as nat * 0x1_0000 + b[2] as nat * 0x100 + b[3] as nat
  }

  function ReadWords(b: Bytes, n: nat): seq<word>
    requires |b| >= 4 * n
  {
    if n == 0 then [] else [ReadWord(b)] + ReadWords(b[4..], n - 1)
  }

  /** How far the next NUL is. */
  function NulAt(b: Bytes): (n: nat)
    ensures n <= |b|
  {
    if b == [] || b[0] == 0 then 0 else 1 + NulAt(b[1..])
  }

  /** Read one record off the front: the path runs to the first NUL, must have the length the flags give, and is
      padded with NULs to a multiple of eight. */
  function ReadRecord(b: Bytes): Option<(Record, Bytes)> {
    if |b| < 62 then None else
      var n := NulAt(b[62..]);
      var path := b[62..62 + n];
      var end := 62 + n + Padding(path);
      if end > |b| || (exists k :: 62 + n <= k < end && b[k] != 0)
         || b[60] as nat * 0x100 + b[61] as nat != (if n < 0xFFF then n else 0xFFF) then None
      else Some((Record(ReadWords(b[..40], 10), b[40..60], path), b[end..]))
  }

  function ReadRecords(b: Bytes, count: nat): Option<(seq<Record>, Bytes)> {
    if count == 0 then Some(([], b)) else
      match ReadRecord(b)
      case None => None
      case Some((r, rest)) =>
        match ReadRecords(rest, count - 1)
        case None => None
        case Some((rs, left)) => Some(([r] + rs, left))
  }

  /** The whole file: header, records, and a checksum of everything before it. */
  function ReadIndex(b: Bytes, sha1: Bytes -> Bytes): Option<seq<Record>> {
    if |b| < 32 || b[..8] != [68, 73, 82, 67, 0, 0, 0, 2] then None else
      match ReadRecords(b[12..], ReadWord(b[8..12]))
      case None => None
      case Some((rs, left)) =>
        if |left| == 20 && left == sha1(b[..|b| - 20]) then Some(rs) else None
  }

  // ---- reading back ----

  lemma {:induction false} ReadBackWords(ws: seq<word>)
    ensures ReadWords(Words(ws), |ws|) == ws
  {
    if ws != [] {
      ReadBackWords(ws[1..]);
      assert Words(ws)[4..] == Words(ws[1..]);
      ReadBackWord(ws[0], Words(ws[1..]));
    }
  }

  lemma ReadBackWord(n: word, rest: Bytes)
    ensures ReadWord(Word(n) + rest) == n
  {
    var a, b, c, d := n / 0x100_0000, n / 0x1_0000 % 0x100, n / 0x100 % 0x100, n % 0x100;
    assert n == 0x100 * (n / 0x100) + d;
    assert n / 0x100 == 0x100 * (n / 0x1_0000) + c;
    assert n / 0x1_0000 == 0x100 * a + b;
    var bytes := Word(n) + rest;
    assert bytes[0] == a as byte && bytes[1] == b as byte && bytes[2] == c as byte && bytes[3] == d as byte;
  }

  lemma {:induction false} NulEndsPath(path: Bytes, rest: Bytes)
    requires 0 !in path && rest != [] && rest[0] == 0
    ensures NulAt(path + rest) == |path|
  {
    if path == [] {
      assert path + rest == rest;
    } else {
      assert (path + rest)[1..] == path[1..] + rest;
      NulEndsPath(path[1..], rest);
    }
  }

  lemma ReadBackRecord(r: Record, rest: Bytes)
    requires WellFormed(r)
    ensures ReadRecord(Encode(r) + rest) == Some((r, rest))
  {
    var b := Encode(r) + rest;
    var pad := Padding(r.path);
    var tail := Zeros(pad) + rest;
    assert b[62..] == r.path + tail;
    NulEndsPath(r.path, tail);
    assert b[62..62 + |r.path|] == r.path;
    var end := 62 + |r.path| + pad;
    assert forall k :: 62 + |r.path| <= k < end ==> b[k] == tail[k - 62 - |r.path|] == 0;
    assert b[60..62] == HalfWord(Flags(r.path));
    assert b[60] == b[60..62][0] && b[61] == b[60..62][1];
    assert b[..40] == Words(r.words);
    assert b[40..60] == r.digest;
    assert b[end..] == rest;
    ReadBackWords(r.words);
  }

  lemma {:induction false} ReadBackRecords(rs: seq<Record>, rest: Bytes)
    requires forall r :: r in rs ==> WellFormed(r)
    ensures ReadRecords(EncodeAll(rs) + rest, |rs|) == Some((rs, rest))
  {
    if rs == [] {
      assert [] + rest == rest;
    } else {
      var later := EncodeAll(rs[1..]) + rest;
      ReadBackRecords(rs[1..], rest);
      ReadBackRecord(rs[0], later);
      Regroup(Encode(rs[0]), EncodeAll(rs[1..]), rest);
      assert EncodeAll(rs) + rest == Encode(rs[0]) + later;
      assert [rs[0]] + rs[1..] == rs;
    }
  }

  lemma HeaderParts(count: word, rest: Bytes)
    ensures var b := Header(count) + rest;
            b[..8] == [68, 73, 82, 67, 0, 0, 0, 2] && ReadWord(b[8..12]) == count && b[12..] == rest
  {
    var b := Header(count) + rest;
    assert b[8..12] == Word(count) + [];
    ReadBackWord(count, []);
    assert b[..8] == [68, 73, 82, 67] + Word(2) == [68, 73, 82, 67, 0, 0, 0, 2];
  }

  lemma ReadBackIndex(rs: seq<Record>, body: Bytes, sum: Bytes, sha1: Bytes -> Bytes)
    requires |rs| < WORD && (forall r :: r in rs ==> WellFormed(r)) && sum == sha1(body) && |sum| == 20
    requires body == Header(|rs|) + EncodeAll(rs)
    ensures ReadIndex(body + sum, sha1) == Some(rs)
  {
    var b := body + sum;
    ReadBackRecords(rs, sum);
    HeaderParts(|rs|, EncodeAll(rs) + sum);
    Regroup(Header(|rs|), EncodeAll(rs), sum);
    assert b[..|b| - 20] == body;
  }

  // ---- the writer ----

  datatype Value = Value(mode: word, digest: Bytes)

  /** Change and modification time (seconds, and nanoseconds within the second), device, inode, user and group. */
  datatype Stat = Stat(
    ctime: nat, ctimeNs: nat, mtime: nat, mtimeNs: nat, device: nat, inode: nat, user: nat, group: nat)

  /** What stands at a path of staging. `mode` is git's for the file as it is now. */
  datatype StagedNode = Regular(content: Bytes, mode: word, stat: Stat) | Other

  type Staging = map<Bytes, StagedNode>

  datatype Info = Info(stat: Stat, size: nat)

  /** `_matching_stat`: a regular file of the recorded size counts as matching the base; its content is not looked at. */
  function MatchingStat(work: Staging, path: Bytes, size: Option<nat>): (info: Option<Info>)
    ensures info.Some? <==> path in work && work[path].Regular? && size == Some(|work[path].content|)
    ensures info.Some? ==> info.value.stat == work[path].stat && Some(info.value.size) == size
  {
    if path in work && work[path].Regular? && size == Some(|work[path].content|) then Some(Info(work[path].stat, size.value)) else None
  }

  /** The words written for a file: its stat data cut to 32 bits if it counts as matching, else zeros. */
  function StatWords(info: Option<Info>, mode: word): (ws: seq<word>)
    ensures |ws| == 10 && ws[6] == mode
  {
    match info
    case None => [0, 0, 0, 0, 0, 0, mode, 0, 0, 0]
    case Some(Info(s, size)) =>
      [s.ctime % WORD, s.ctimeNs % WORD, s.mtime % WORD, s.mtimeNs % WORD, s.device % WORD, s.inode % WORD, mode,
       s.user % WORD, s.group % WORD, size % WORD]
  }

  predicate RecordFor(r: Record, path: Bytes, value: Value, info: Option<Info>) {
    r == Record(StatWords(info, value.mode), value.digest, path)
  }

  ghost predicate Writable(entries: map<Bytes, Value>) {
    && |entries| < WORD
    && forall p :: p in entries ==> 0 !in p && |entries[p].digest| == 20
  }

  /** The records are the entries, once each, in byte order. */
  ghost predicate Holds(rs: seq<Record>, entries: map<Bytes, Value>, work: Staging, sizes: map<Bytes, nat>) {
    && |rs| == |entries|
    && (forall i, j :: 0 <= i < j < |rs| ==> Less(rs[i].path, rs[j].path))
    && (forall i :: 0 <= i < |rs| ==>
          rs[i].path in entries && RecordFor(rs[i], rs[i].path, entries[rs[i].path], MatchingStat(work, rs[i].path, Lookup(sizes, rs[i].path))))
    && forall p :: p in entries ==> exists i :: 0 <= i < |rs| && rs[i].path == p
  }

  /** A record for each path, in the order of the paths. */
  ghost predicate RecordsFor(rs: seq<Record>, paths: seq<Bytes>, entries: map<Bytes, Value>, work: Staging, sizes: map<Bytes, nat>) {
    && |rs| == |paths| && (forall r :: r in rs ==> WellFormed(r))
    && forall k :: 0 <= k < |paths| ==>
         paths[k] in entries && RecordFor(rs[k], paths[k], entries[paths[k]], MatchingStat(work, paths[k], Lookup(sizes, paths[k])))
  }

  lemma OneMoreRecord(
    rs: seq<Record>, r: Record, paths: seq<Bytes>, path: Bytes, entries: map<Bytes, Value>, work: Staging, sizes: map<Bytes, nat>)
    requires RecordsFor(rs, paths, entries, work, sizes) && path in entries && WellFormed(r)
    requires RecordFor(r, path, entries[path], MatchingStat(work, path, Lookup(sizes, path)))
    ensures RecordsFor(rs + [r], paths + [path], entries, work, sizes)
  {
  }

  method EncodeRecords(entries: map<Bytes, Value>, work: Staging, sizes: map<Bytes, nat>, paths: seq<Bytes>)
    returns (records: Bytes, ghost rs: seq<Record>)
    requires Writable(entries) && forall p :: p in paths ==> p in entries
    ensures RecordsFor(rs, paths, entries, work, sizes) && records == EncodeAll(rs)
  {
    rs := [];
    records := [];
    for i := 0 to |paths|
      invariant RecordsFor(rs, paths[..i], entries, work, sizes)
      invariant records == EncodeAll(rs)
    {
      var path := paths[i];
      var record := Record(StatWords(MatchingStat(work, path, Lookup(sizes, path)), entries[path].mode), entries[path].digest, path);
      EncodeOneMore(rs, record);
      assert paths[..i + 1] == paths[..i] + [path];
      OneMoreRecord(rs, record, paths[..i], path, entries, work, sizes);
      records := records + Encode(record);
      rs := rs + [record];
    }
    assert paths[..|paths|] == paths;
  }

  /** `_write_index`: any reader of the format gets back exactly the entries, in byte order, with the stat data of
      exactly the staged files that are regular and of the recorded size. */
  method WriteIndex(entries: map<Bytes, Value>, work: Staging, sizes: map<Bytes, nat>, sha1: Bytes -> Bytes) returns (out: Bytes)
    requires Writable(entries) && forall b :: |sha1(b)| == 20
    ensures ReadIndex(out, sha1).Some? && Holds(ReadIndex(out, sha1).value, entries, work, sizes)
  {
    var paths := SortBytes(entries.Keys);
    var records;
    ghost var rs;
    records, rs := EncodeRecords(entries, work, sizes, paths);
    PathCount(paths, entries.Keys);
    var body := Header(|paths|) + records;
    var sum := sha1(body);
    ReadBackIndex(rs, body, sum, sha1);
    AllHeld(paths, rs, entries, work, sizes);
    return body + sum;
  }

  lemma AllHeld(paths: seq<Bytes>, rs: seq<Record>, entries: map<Bytes, Value>, work: Staging, sizes: map<Bytes, nat>)
    requires Writable(entries) && |rs| == |paths| == |entries|
    requires AscendingBytes(paths) && forall p :: p in paths <==> p in entries
    requires RecordsFor(rs, paths, entries, work, sizes)
    ensures Holds(rs, entries, work, sizes)
  {
    assert forall k :: 0 <= k < |paths| ==> rs[k].path == paths[k];
    forall p | p in entries ensures exists i :: 0 <= i < |rs| && rs[i].path == p {
      var i :| 0 <= i < |paths| && paths[i] == p;
      assert rs[i].path == p;
    }
  }

  lemma {:induction false} EncodeOneMore(rs: seq<Record>, r: Record)
    requires WellFormed(r) && forall q :: q in rs ==> WellFormed(q)
    ensures EncodeAll(rs + [r]) == EncodeAll(rs) + Encode(r)
  {
    if rs == [] {
      assert [r][1..] == [] && [] + [r] == [r];
    } else {
      assert (rs + [r])[1..] == rs[1..] + [r];
      EncodeOneMore(rs[1..], r);
    }
  }

  lemma {:induction false} PathCount(keys: seq<Bytes>, s: set<Bytes>)
    requires AscendingBytes(keys) && forall b :: b in keys <==> b in s
    ensures |keys| == |s|
  {
    if keys == [] {
      assert s == {};
    } else {
      var last, front := keys[|keys| - 1], keys[..|keys| - 1];
      forall b ensures b in front <==> b in s - {last} {
        if b in front {
          var i :| 0 <= i < |front| && front[i] == b;
          LessIsTotal(keys[i], last);
        }
        if b in s && b != last {
          var i :| 0 <= i < |keys| && keys[i] == b;
          assert front[i] == b;
        }
      }
      PathCount(front, s - {last});
    }
  }

  /** The records of the file, field by field: for a regular file of the recorded size the words are change time,
      modification time, device, inode, mode, user, group and size, each cut to 32 bits; otherwise only the mode is there. */
  lemma HeldFields(rs: seq<Record>, entries: map<Bytes, Value>, work: Staging, sizes: map<Bytes, nat>, i: nat)
    requires Holds(rs, entries, work, sizes) && i < |rs|
    ensures var path, w := rs[i].path, rs[i].words;
            && path in entries && rs[i].digest == entries[path].digest
            && |w| == 10 && w[6] == entries[path].mode
            && if path in work && work[path].Regular? && Lookup(sizes, path) == Some(|work[path].content|) then
                 var n := work[path];
                 && w[0] == n.stat.ctime % 0x1_0000_0000 && w[1] == n.stat.ctimeNs % 0x1_0000_0000
                 && w[2] == n.stat.mtime % 0x1_0000_0000 && w[3] == n.stat.mtimeNs % 0x1_0000_0000
                 && w[4] == n.stat.device % 0x1_0000_0000 && w[5] == n.stat.inode % 0x1_0000_0000
                 && w[7] == n.stat.user % 0x1_0000_0000 && w[8] == n.stat.group % 0x1_0000_0000
                 && w[9] == |n.content| % 0x1_0000_0000
               else forall k :: 0 <= k < 10 && k != 6 ==> w[k] == 0
  {
    assert RecordFor(rs[i], rs[i].path, entries[rs[i].path], MatchingStat(work, rs[i].path, Lookup(sizes, rs[i].path)));
  }

  /** The order of the records: a proper prefix comes first, otherwise the smaller byte where two paths first differ. */
  lemma IndexInByteOrder(rs: seq<Record>, entries: map<Bytes, Value>, work: Staging, sizes: map<Bytes, nat>, i: nat, j: nat)
    requires Holds(rs, entries, work, sizes) && i < j < |rs|
    ensures var a, b := rs[i].path, rs[j].path;
            a < b || exists k :: 0 <= k < |a| && k < |b| && a[..k] == b[..k] && a[k] < b[k]
  {
    LessIff(rs[i].path, rs[j].path);
  }

  // ---- what the index vouches for ----

  /** Git takes a staged file for unchanged, without reading it, when its mode and stat data are those of the record. */
  predicate TakenForClean(r: Record, n: StagedNode)
  {
    n.Regular? && r.words == StatWords(Some(Info(n.stat, |n.content|)), n.mode)
  }

  /** Some stat word of the file is not zero, as the inode of every real file is not. */
  predicate HasStat(n: StagedNode)
  {
    n.Regular? ==> StatWords(Some(Info(n.stat, |n.content|)), n.mode) != StatWords(None, n.mode)
  }

  /** The index written for a baseline vouches for a staged file that does not hold the baseline's content if and only
      if the file is regular, of the recorded size and the recorded mode, and of another digest. */
  lemma VouchesFalselyIff(
    rs: seq<Record>, entries: map<Bytes, Value>, work: Staging, sizes: map<Bytes, nat>, hashes: map<Bytes, Digest>, i: nat)
    requires Holds(rs, entries, work, sizes) && i < |rs|
    requires rs[i].path in work && rs[i].path in hashes && HasStat(work[rs[i].path])
    ensures var path := rs[i].path;
            var n := work[path];
            TakenForClean(rs[i], n) && Sha256(n.content) != hashes[path] <==>
              && n.Regular? && Lookup(sizes, path) == Some(|n.content|) && n.mode == entries[path].mode
              && Sha256(n.content) != hashes[path]
  {
    var n := work[rs[i].path];
    assert RecordFor(rs[i], rs[i].path, entries[rs[i].path], MatchingStat(work, rs[i].path, Lookup(sizes, rs[i].path)));
    if n.Regular? && TakenForClean(rs[i], n) {
      assert rs[i].words[6] == n.mode;
    }
  }

  /** An edit that keeps the size goes unnoticed: the base holds one byte, staging another. */
  lemma EqualSizeGoesUnnoticed(path: Bytes, mode: word, blob: Bytes, stat: Stat, a: byte, b: byte, rs: seq<Record>)
    requires 0 !in path && |blob| == 20 && a != b && HasStat(Regular([b], mode, stat))
    requires Holds(rs, map[path := Value(mode, blob)], map[path := Regular([b], mode, stat)], map[path := 1])
    ensures |rs| == 1 && TakenForClean(rs[0], Regular([b], mode, stat)) && Sha256([b]) != Sha256([a])
  {
    assert rs[0].path == path;
    VouchesFalselyIff(rs, map[path := Value(mode, blob)], map[path := Regular([b], mode, stat)], map[path := 1], map[path := Sha256([a])], 0);
  }
}
