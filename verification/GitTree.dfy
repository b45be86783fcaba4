/** `_write_tree`: the base tree as git objects, and the reader it must satisfy. */
module GitTree {
  import opened Common
  import opened ByteOrder

  type Name = Bytes

  datatype Kind = Blob | Tree

  /** A SHA-1 name, told apart exactly by the object it was computed from; in a tree object it stands as one symbol. */
  datatype ObjectId = Sha1(kind: Kind, body: seq<Symbol>)

  datatype Symbol = B(value: byte) | Id(id: ObjectId)

  type Objects = map<ObjectId, seq<Symbol>>

  /** The nested dictionaries the writer builds first. */
  datatype Node = Leaf(mode: Bytes, blob: ObjectId) | Dir(children: map<Name, Node>)

  type Dictionary = map<Name, Node>

  type Route = seq<Name>

  datatype Item = Item(mode: Bytes, name: Name, id: ObjectId)

  /** "40000" */
  const TREE_MODE: Bytes := [52, 48, 48, 48, 48]

  /** "100755" and "100644" */
  const EXECUTABLE: Bytes := [49, 48, 48, 55, 53, 53]
  const PLAIN: Bytes := [49, 48, 48, 54, 52, 52]

  /** `_git_mode`: whether any of the three execute bits is set. */
  function GitMode(mode: nat): Bytes {
    if mode % 2 == 1 || mode / 8 % 2 == 1 || mode / 64 % 2 == 1 then EXECUTABLE else PLAIN
  }

  /** A file is "100755" if the owner, the group or others may execute it, else "100644"; no other bit counts. */
  lemma GitModeMeaning(special: nat, owner: nat, group: nat, others: nat)
    requires owner < 8 && group < 8 && others < 8
    ensures GitMode(512 * special + 64 * owner + 8 * group + others)
            == if owner % 2 == 1 || group % 2 == 1 || others % 2 == 1 then [49, 48, 48, 55, 53, 53] else [49, 48, 48, 54, 52, 52]
  {
    var upper := 8 * special + owner;
    Digit(8 * upper + group, others);
    Digit(upper, group);
    assert upper % 2 == owner % 2;
    DivideTwice(512 * special + 64 * owner + 8 * group + others);
  }

  lemma Digit(q: nat, r: nat)
    requires r < 8
    ensures (8 * q + r) / 8 == q && (8 * q + r) % 2 == r % 2
  {
    var half, bit := 4 * q + r / 2, r % 2;
    assert 8 * q + r == 2 * half + bit;
  }

  lemma DivideTwice(n: nat)
    ensures n / 64 == n / 8 / 8
  {
  }

  predicate IsName(n: Name) {
    n != [] && 0 !in n && 47 !in n
  }

  // ---- building the dictionaries ----

  function LeafAt(d: Dictionary, p: Route): Option<Node>
    decreases |p|
  {
    if p == [] || p[0] !in d then None
    else match d[p[0]]
      case Leaf(_, _) => if |p| == 1 then Some(d[p[0]]) else None
      case Dir(children) => LeafAt(children, p[1..])
  }

  predicate Related(p: Route, q: Route) {
    p <= q || q <= p
  }

  /** `node.setdefault(part, {})` along the path, then the value. */
  function Insert(d: Dictionary, p: Route, leaf: Node): Dictionary
    requires p != []
    decreases |p|
  {
    if |p| == 1 then d[p[0] := leaf]
    else
      var below := if p[0] in d && d[p[0]].Dir? then d[p[0]].children else map[];
      d[p[0] := Dir(Insert(below, p[1..], leaf))]
  }

  /** A file goes in without disturbing any other, as long as neither path leads through the other. */
  lemma {:induction false} InsertOne(d: Dictionary, p: Route, leaf: Node, q: Route)
    requires p != [] && leaf.Leaf?
    requires forall r :: Related(p, r) && r != p ==> LeafAt(d, r).None?
    ensures LeafAt(Insert(d, p, leaf), q) == if q == p then Some(leaf) else LeafAt(d, q)
    decreases |p|
  {
    if q != [] && q[0] == p[0] {
      if |p| == 1 {
        assert p <= q && (|q| == 1 ==> q == p);
      } else {
        var below := if p[0] in d && d[p[0]].Dir? then d[p[0]].children else map[];
        assert p == [p[0]] + p[1..] && q == [p[0]] + q[1..];
        forall r | Related(p[1..], r) && r != p[1..] ensures LeafAt(below, r).None? {
          var whole := [p[0]] + r;
          assert whole[1..] == r;
          assert Related(p, whole) && whole != p;
        }
        InsertOne(below, p[1..], leaf, q[1..]);
        if p[0] in d && d[p[0]].Leaf? {
          assert Related(p, [p[0]]);
        }
      }
    }
  }

  ghost predicate PrefixFree(entries: map<Route, Node>) {
    forall p, q :: p in entries && q in entries && Related(p, q) ==> p == q
  }

  /** No file's path leads through another's, names can be names, and every value is a file. */
  ghost predicate Writable(entries: map<Route, Node>) {
    && PrefixFree(entries)
    && forall p :: p in entries ==> p != [] && (forall name :: name in p ==> IsName(name)) && entries[p].Leaf? && WellNamed(entries[p])
  }

  lemma {:induction false} InsertIsWellNamed(d: Dictionary, p: Route, leaf: Node)
    requires p != [] && (forall name :: name in p ==> IsName(name))
    requires WellNamed(Dir(d)) && leaf.Leaf? && WellNamed(leaf)
    ensures WellNamed(Dir(Insert(d, p, leaf)))
    decreases |p|
  {
    assert p[0] in p;
    if |p| > 1 {
      var below := if p[0] in d && d[p[0]].Dir? then d[p[0]].children else map[];
      assert WellNamed(Dir(below)) by {
        if p[0] in d && d[p[0]].Dir? {
          assert d[p[0]] == Dir(below);
        }
      }
      InsertIsWellNamed(below, p[1..], leaf);
    }
  }

  ghost predicate Spells(d: Dictionary, entries: map<Route, Node>) {
    forall q :: LeafAt(d, q) == Lookup(entries, q)
  }

  /** The first half of `_write_tree`. */
  method BuildTree(entries: map<Route, Node>) returns (root: Dictionary)
    requires Writable(entries)
    ensures Spells(root, entries) && WellNamed(Dir(root))
  {
    root := map[];
    var left := entries.Keys;
    while left != {}
      invariant left <= entries.Keys && WellNamed(Dir(root))
      invariant forall q :: LeafAt(root, q) == if q in left then None else Lookup(entries, q)
      decreases |left|
    {
      var path :| path in left;
      forall q
        ensures LeafAt(Insert(root, path, entries[path]), q) == if q in left - {path} then None else Lookup(entries, q)
      {
        InsertOne(root, path, entries[path], q);
      }
      InsertIsWellNamed(root, path, entries[path]);
      root := Insert(root, path, entries[path]);
      left := left - {path};
    }
  }

  // ---- tree objects ----

  predicate WellNamed(n: Node) {
    match n
    case Leaf(mode, blob) => mode == EXECUTABLE || mode == PLAIN
    case Dir(children) => forall name :: name in children ==> IsName(name) && WellNamed(children[name])
  }

  /** What an entry sorts by: a directory counts as its name with a slash. */
  function Key(it: Item): Bytes {
    if it.mode == TREE_MODE then it.name + [47] else it.name
  }

  function KeyOf(name: Name, n: Node): Bytes {
    if n.Dir? then name + [47] else name
  }

  function Symbols(bs: Bytes): (s: seq<Symbol>)
    ensures |s| == |bs|
  {
    seq(|bs|, i requires 0 <= i < |bs| => B(bs[i]))
  }

  function EncodeItem(it: Item): seq<Symbol> {
    Symbols(it.mode + [32]) + (Symbols(it.name + [0]) + [Id(it.id)])
  }

  function EncodeItems(items: seq<Item>): seq<Symbol> {
    if items == [] then [] else EncodeItem(items[0]) + EncodeItems(items[1..])
  }

  /** The bytes up to a stop byte, and what follows it. */
  function ReadUntil(s: seq<Symbol>, stop: byte): (r: Option<(Bytes, seq<Symbol>)>)
    ensures r.Some? ==> |r.value.1| < |s| && forall x :: x in r.value.1 ==> x in s
  {
    if s == [] || s[0].Id? then None
    else if s[0].value == stop then Some(([], s[1..]))
    else match ReadUntil(s[1..], stop)
      case None => None
      case Some((bs, rest)) => Some(([s[0].value] + bs, rest))
  }

  function ReadItem(s: seq<Symbol>): (r: Option<(Item, seq<Symbol>)>)
    ensures r.Some? ==> |r.value.1| < |s| && Id(r.value.0.id) in s && forall x :: x in r.value.1 ==> x in s
  {
    match ReadUntil(s, 32)
    case None => None
    case Some((mode, after)) =>
      match ReadUntil(after, 0)
      case None => None
      case Some((name, rest)) =>
        if rest == [] || rest[0].B? then None else
          assert rest[0] in rest;
          Some((Item(mode, name, rest[0].id), rest[1..]))
  }

  function ReadItems(s: seq<Symbol>): (r: Option<seq<Item>>)
    ensures r.Some? ==> forall it :: it in r.value ==> Id(it.id) in s
    decreases |s|
  {
    if s == [] then Some([]) else
      match ReadItem(s)
      case None => None
      case Some((it, rest)) =>
        match ReadItems(rest)
        case None => None
        case Some(items) => Some([it] + items)
  }

  predicate InGitOrder(items: seq<Item>) {
    forall i, j :: 0 <= i < j < |items| ==> Less(Key(items[i]), Key(items[j]))
  }

  /** Read a tree object back; a tree whose entries are not in git's order is malformed. */
  function ReadTree(objects: Objects, id: ObjectId): Option<Dictionary>
    decreases id, 2, 0
  {
    if id.kind != Tree || Lookup(objects, id) != Some(id.body) then None else
      match ReadItems(id.body)
      case None => None
      case Some(items) => if InGitOrder(items) then ReadNodes(objects, items, id) else None
  }

  function ReadNodes(objects: Objects, items: seq<Item>, whole: ObjectId): Option<Dictionary>
    requires forall it :: it in items ==> Id(it.id) in whole.body
    decreases whole, 1, |items|
  {
    if items == [] then Some(map[]) else
      var node := ReadNode(objects, items[0], whole);
      var others := ReadNodes(objects, items[1..], whole);
      if node.None? || others.None? then None else Some(others.value[items[0].name := node.value])
  }

  function ReadNode(objects: Objects, it: Item, whole: ObjectId): Option<Node>
    requires Id(it.id) in whole.body
    decreases whole, 0, 0
  {
    if it.mode != TREE_MODE then Some(Leaf(it.mode, it.id)) else
      match ReadTree(objects, it.id)
      case None => None
      case Some(children) => Some(Dir(children))
  }

  // ---- reading back ----

  lemma {:induction false} ReadBackUntil(bs: Bytes, stop: byte, rest: seq<Symbol>)
    requires stop !in bs
    ensures ReadUntil(Symbols(bs + [stop]) + rest, stop) == Some((bs, rest))
  {
    var s := Symbols(bs + [stop]) + rest;
    if bs == [] {
      assert s[1..] == rest;
    } else {
      assert s[0] == B(bs[0]);
      assert s[1..] == Symbols(bs[1..] + [stop]) + rest;
      ReadBackUntil(bs[1..], stop, rest);
      assert [bs[0]] + bs[1..] == bs;
    }
  }

  predicate Encodable(it: Item) {
    32 !in it.mode && 0 !in it.name
  }

  lemma ReadBackItem(it: Item, rest: seq<Symbol>)
    requires Encodable(it)
    ensures ReadItem(EncodeItem(it) + rest) == Some((it, rest))
  {
    var after := [Id(it.id)] + rest;
    ReadBackUntil(it.name, 0, after);
    ReadBackUntil(it.mode, 32, Symbols(it.name + [0]) + after);
    assert EncodeItem(it) + rest == Symbols(it.mode + [32]) + (Symbols(it.name + [0]) + after);
    assert after[1..] == rest;
  }

  lemma {:induction false} ReadBackItems(items: seq<Item>)
    requires forall it :: it in items ==> Encodable(it)
    ensures ReadItems(EncodeItems(items)) == Some(items)
  {
    if items != [] {
      ReadBackItems(items[1..]);
      ReadBackItem(items[0], EncodeItems(items[1..]));
      assert [items[0]] + items[1..] == items;
    }
  }

  /** Objects written later change nothing that could be read before. */
  lemma {:induction false} ReadingIsStable(before: Objects, after: Objects, id: ObjectId)
    requires forall o :: o in before ==> Lookup(after, o) == Lookup(before, o)
    requires ReadTree(before, id).Some?
    ensures ReadTree(after, id) == ReadTree(before, id)
    decreases id, 2, 0
  {
    NodesAreStable(before, after, ReadItems(id.body).value, id);
  }

  /** The order of a tree object's entries, a directory counting as its name with a slash: a proper prefix comes first,
      otherwise the smaller byte where two first differ. */
  lemma TreeInGitOrder(objects: Objects, id: ObjectId, i: nat, j: nat, a: Bytes, b: Bytes)
    requires ReadTree(objects, id).Some? && i < j < |ReadItems(id.body).value|
    requires var it := ReadItems(id.body).value[i]; a == if it.mode == [52, 48, 48, 48, 48] then it.name + [47] else it.name
    requires var it := ReadItems(id.body).value[j]; b == if it.mode == [52, 48, 48, 48, 48] then it.name + [47] else it.name
    ensures a < b || exists k :: 0 <= k < |a| && k < |b| && a[..k] == b[..k] && a[k] < b[k]
  {
    var items := ReadItems(id.body).value;
    assert InGitOrder(items);
    assert Less(Key(items[i]), Key(items[j]));
    LessIff(a, b);
  }

  /** A tree that can be read is in the store. */
  lemma ReadTreesAreStored(objects: Objects, id: ObjectId)
    requires ReadTree(objects, id).Some?
    ensures id.kind == Tree && id in objects && objects[id] == id.body
  {
  }

  /** Every tree inside a tree that can be read can be read. */
  lemma {:induction false} SubtreesAreRead(objects: Objects, items: seq<Item>, whole: ObjectId, i: nat)
    requires forall it :: it in items ==> Id(it.id) in whole.body
    requires ReadNodes(objects, items, whole).Some? && i < |items| && items[i].mode == [52, 48, 48, 48, 48]
    ensures ReadTree(objects, items[i].id).Some?
  {
    if i > 0 {
      SubtreesAreRead(objects, items[1..], whole, i - 1);
    }
  }

  lemma {:induction false} NodesAreStable(before: Objects, after: Objects, items: seq<Item>, whole: ObjectId)
    requires forall o :: o in before ==> Lookup(after, o) == Lookup(before, o)
    requires forall it :: it in items ==> Id(it.id) in whole.body
    requires ReadNodes(before, items, whole).Some?
    ensures ReadNodes(after, items, whole) == ReadNodes(before, items, whole)
    decreases whole, 1, |items|
  {
    if items != [] {
      if items[0].mode == TREE_MODE {
        ReadingIsStable(before, after, items[0].id);
      }
      NodesAreStable(before, after, items[1..], whole);
    }
  }

  // ---- the writer ----

  /** What an item read back from the store stands for. */
  ghost predicate Means(objects: Objects, it: Item, n: Node) {
    match n
    case Leaf(mode, blob) => it.mode == mode && it.id == blob && mode != TREE_MODE
    case Dir(children) => it.mode == TREE_MODE && ReadTree(objects, it.id) == Some(children)
  }

  lemma {:induction false} NodesRead(objects: Objects, items: seq<Item>, whole: ObjectId, children: Dictionary, name: Name)
    requires forall it :: it in items ==> Id(it.id) in whole.body && it.name in children && Means(objects, it, children[it.name])
    ensures ReadNodes(objects, items, whole).Some?
    ensures Lookup(ReadNodes(objects, items, whole).value, name) ==
            if Lists(items, name) then Lookup(children, name) else None
  {
    if items != [] {
      assert items[0] in items;
      NodeRead(objects, items[0], whole, children[items[0].name]);
      NodesRead(objects, items[1..], whole, children, name);
    }
  }

  lemma NodeRead(objects: Objects, it: Item, whole: ObjectId, n: Node)
    requires Id(it.id) in whole.body && Means(objects, it, n)
    ensures ReadNode(objects, it, whole) == Some(n)
  {
  }

  predicate Lists(items: seq<Item>, name: Name) {
    items != [] && (items[0].name == name || Lists(items[1..], name))
  }

  lemma {:induction false} ListsAt(items: seq<Item>, i: nat)
    requires i < |items|
    ensures Lists(items, items[i].name)
  {
    if i > 0 {
      ListsAt(items[1..], i - 1);
    }
  }

  datatype BaseFile = BaseFile(mode: nat, blob: ObjectId)

  function EntriesOf(files: map<Route, BaseFile>): map<Route, Node> {
    map p | p in files :: Leaf(GitMode(files[p].mode), files[p].blob)
  }

  /** What can be written: files whose names are not empty and hold neither NUL nor a slash, none of them inside another. */
  lemma WritableIff(files: map<Route, BaseFile>)
    ensures Writable(EntriesOf(files)) <==>
              && (forall p :: p in files ==> p != [])
              && (forall p: Route, i: nat :: p in files && i < |p| ==> p[i] != [] && 0 !in p[i] && 47 !in p[i])
              && forall p, q :: p in files && q in files && p <= q ==> p == q
  {
    var entries := EntriesOf(files);
    assert forall p :: p in entries <==> p in files;
    if Writable(entries) {
      forall p: Route, i: nat | p in files && i < |p| ensures p[i] != [] && 0 !in p[i] && 47 !in p[i] {
        assert p in entries && p[i] in p;
      }
      forall p, q | p in files && q in files && p <= q ensures p == q {
        assert Related(p, q) && p in entries && q in entries;
      }
    } else if forall p: Route, i: nat :: p in files && i < |p| ==> p[i] != [] && 0 !in p[i] && 47 !in p[i] {
      forall p, name: Name | p in files && name in p ensures IsName(name) {
        var i :| 0 <= i < |p| && p[i] == name;
      }
    }
  }

  class Repository {
    var objects: Objects

    constructor ()
      ensures objects == map[]
    {
      objects := map[];
    }

    ghost predicate Valid()
      reads this
    {
      forall id :: id in objects ==> objects[id] == id.body
    }

    /** `_write_object`: an object already there is left alone. */
    method WriteObject(kind: Kind, body: seq<Symbol>) returns (id: ObjectId)
      requires Valid()
      modifies this
      ensures Valid() && id == Sha1(kind, body) && id in objects
      ensures forall o :: o in old(objects) ==> Lookup(objects, o) == Lookup(old(objects), o)
    {
      id := Sha1(kind, body);
      if id in objects {
        return;
      }
      objects := objects[id := body];
    }

    /** `_write_tree` over the entries of `_write_base`: reading the written tree back recovers exactly the given
        paths, modes, and blobs, every tree on the way in git's order. */
    method WriteBaseTree(files: map<Route, BaseFile>) returns (id: ObjectId)
      requires Valid() && Writable(EntriesOf(files))
      modifies this
      ensures Valid()
      ensures forall o :: o in old(objects) ==> Lookup(objects, o) == Lookup(old(objects), o)
      ensures ReadTree(objects, id).Some?
      ensures forall p :: LeafAt(ReadTree(objects, id).value, p) ==
                          if p in files then Some(Leaf(GitMode(files[p].mode), files[p].blob)) else None
    {
      var root := BuildTree(EntriesOf(files));
      id := WriteTree(Dir(root));
    }

    /** `write`: every subdirectory first, then this directory with its entries sorted. Reading the result back
        gives exactly the dictionary that was written. */
    method WriteTree(n: Node) returns (id: ObjectId)
      requires Valid() && n.Dir? && WellNamed(n)
      modifies this
      ensures Valid()
      ensures forall o :: o in old(objects) ==> Lookup(objects, o) == Lookup(old(objects), o)
      ensures ReadTree(objects, id) == Some(n.children)
      decreases n, 1
    {
      var made := WriteChildren(n);
      var keys := SortBytes(made.Keys);
      var items := seq(|keys|, i requires 0 <= i < |keys| => assert keys[i] in keys; made[keys[i]]);
      ghost var before := objects;
      id := WriteObject(Tree, EncodeItems(items));
      SortedItemsRead(before, objects, n.children, made, keys, items, id);
    }

    /** One item for every entry of the dictionary, under the key it sorts by. */
    method WriteChildren(n: Node) returns (made: map<Bytes, Item>)
      requires Valid() && n.Dir? && WellNamed(n)
      modifies this
      ensures Valid()
      ensures forall o :: o in old(objects) ==> Lookup(objects, o) == Lookup(old(objects), o)
      ensures ItemsFor(objects, n.children, made, {})
      decreases n, 0
    {
      made := map[];
      var left := n.children.Keys;
      while left != {}
        invariant Valid() && left <= n.children.Keys
        invariant forall o :: o in old(objects) ==> Lookup(objects, o) == Lookup(old(objects), o)
        invariant ItemsFor(objects, n.children, made, left)
        decreases |left|
      {
        var name :| name in left;
        var child := n.children[name];
        ghost var before := objects;
        var item;
        match child {
          case Leaf(mode, blob) =>
            item := Item(mode, name, blob);
          case Dir(_) =>
            var id := WriteTree(child);
            item := Item(TREE_MODE, name, id);
        }
        ItemsKept(before, objects, n.children, made, left);
        OneMoreItem(objects, n.children, made, left, name, item);
        made := made[Key(item) := item];
        left := left - {name};
      }
    }
  }

  ghost predicate ItemsFor(objects: Objects, children: Dictionary, made: map<Bytes, Item>, left: set<Name>) {
    && (forall k :: k in made ==>
          && Key(made[k]) == k && made[k].name in children && made[k].name !in left
          && Means(objects, made[k], children[made[k].name]))
    && forall name :: name in children && name !in left ==>
         KeyOf(name, children[name]) in made && made[KeyOf(name, children[name])].name == name
  }

  lemma ItemsKept(before: Objects, after: Objects, children: Dictionary, made: map<Bytes, Item>, left: set<Name>)
    requires forall o :: o in before ==> Lookup(after, o) == Lookup(before, o)
    requires ItemsFor(before, children, made, left)
    ensures ItemsFor(after, children, made, left)
  {
    forall k | k in made ensures Means(after, made[k], children[made[k].name]) {
      if children[made[k].name].Dir? {
        ReadingIsStable(before, after, made[k].id);
      }
    }
  }

  lemma DistinctKeys(a: Name, b: Name, m: Node, n: Node)
    requires IsName(a) && IsName(b) && KeyOf(a, m) == KeyOf(b, n)
    ensures a == b
  {
    assert m.Dir? ==> KeyOf(a, m)[|a|] == 47;
    assert n.Dir? ==> KeyOf(b, n)[|b|] == 47;
    assert KeyOf(a, m)[..|a|] == a && KeyOf(b, n)[..|b|] == b;
  }

  lemma OneMoreItem(objects: Objects, children: Dictionary, made: map<Bytes, Item>, left: set<Name>, name: Name, item: Item)
    requires ItemsFor(objects, children, made, left) && left <= children.Keys && name in left
    requires forall n :: n in children ==> IsName(n)
    requires item.name == name && Means(objects, item, children[name])
    ensures ItemsFor(objects, children, made[Key(item) := item], left - {name})
  {
    assert Key(item) == KeyOf(name, children[name]);
    forall n | n in children && n !in left && KeyOf(n, children[n]) == Key(item) ensures n == name {
      DistinctKeys(n, name, children[n], children[name]);
    }
  }

  lemma SortedItemsRead(before: Objects, after: Objects, children: Dictionary, made: map<Bytes, Item>, keys: seq<Bytes>, items: seq<Item>, id: ObjectId)
    requires forall o :: o in before ==> Lookup(after, o) == Lookup(before, o)
    requires ItemsFor(before, children, made, {}) && WellNamed(Dir(children))
    requires AscendingBytes(keys) && Arranged(made, keys, items)
    requires id == Sha1(Tree, EncodeItems(items)) && Lookup(after, id) == Some(id.body)
    ensures ReadTree(after, id) == Some(children)
  {
    ItemsKept(before, after, children, made, {});
    ItemsAreEncodable(after, children, made, keys, items);
    ReadBackItems(items);
    assert InGitOrder(items);
    AllNodesRead(after, children, made, keys, items, id);
  }

  lemma AllNodesRead(objects: Objects, children: Dictionary, made: map<Bytes, Item>, keys: seq<Bytes>, items: seq<Item>, whole: ObjectId)
    requires ItemsFor(objects, children, made, {}) && Arranged(made, keys, items)
    requires forall it :: it in items ==> Id(it.id) in whole.body && it.name in children && Means(objects, it, children[it.name])
    ensures ReadNodes(objects, items, whole) == Some(children)
  {
    NodesRead(objects, items, whole, children, []);
    var read := ReadNodes(objects, items, whole).value;
    forall name ensures Lookup(read, name) == Lookup(children, name) {
      NodesRead(objects, items, whole, children, name);
      if name in children {
        EveryNameHasItsItem(objects, children, made, keys, items, name);
      }
    }
    SameLookupsSameMap(read, children);
  }

  ghost predicate Arranged(made: map<Bytes, Item>, keys: seq<Bytes>, items: seq<Item>) {
    && (forall k :: k in keys <==> k in made)
    && |items| == |keys| && forall i :: 0 <= i < |keys| ==> keys[i] in made && items[i] == made[keys[i]]
  }

  lemma ItemsAreEncodable(objects: Objects, children: Dictionary, made: map<Bytes, Item>, keys: seq<Bytes>, items: seq<Item>)
    requires ItemsFor(objects, children, made, {}) && WellNamed(Dir(children)) && Arranged(made, keys, items)
    ensures forall it :: it in items ==> Encodable(it) && it.name in children && Means(objects, it, children[it.name])
  {
    forall it | it in items ensures Encodable(it) && it.name in children && Means(objects, it, children[it.name]) {
      var i :| 0 <= i < |items| && items[i] == it;
      assert keys[i] in made && made[keys[i]] == it;
      OneIsEncodable(objects, children, it);
    }
  }

  lemma OneIsEncodable(objects: Objects, children: Dictionary, it: Item)
    requires WellNamed(Dir(children)) && it.name in children && Means(objects, it, children[it.name])
    ensures Encodable(it)
  {
    assert IsName(it.name) && WellNamed(children[it.name]);
  }

  lemma EveryNameHasItsItem(objects: Objects, children: Dictionary, made: map<Bytes, Item>, keys: seq<Bytes>, items: seq<Item>, name: Name)
    requires ItemsFor(objects, children, made, {}) && Arranged(made, keys, items) && name in children
    ensures Lists(items, name)
  {
    var i :| 0 <= i < |keys| && keys[i] == KeyOf(name, children[name]);
    ListsAt(items, i);
  }
}
