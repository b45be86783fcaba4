/** `src/import_export.py`: ordering an exported message tree and rebuilding it under new names. */
module MessageTree {
  import opened Common

  type Id = string

  datatype Message = Message(id: Id, parent: Option<Id>, role: string, content: Bytes)

  const ROLE_LABELS: set<string> := {"system", "user", "assistant"}

  datatype ImportError = TooMany | DuplicateId | InvalidRole | TooLarge | MissingParent | Cycle

  const MAX_IMPORT_CONTENT_BYTES := 10 * 1024 * 1024
  const MAX_IMPORT_MESSAGES := 100_000

  type ById = map<Id, Message>

  // ---- the table of messages ----

  ghost predicate UniqueIds(ms: seq<Message>, n: nat)
    requires n <= |ms|
  {
    forall i, j :: 0 <= i < j < n ==> ms[i].id != ms[j].id
  }

  function ContentBytes(ms: seq<Message>, n: nat): nat
    requires n <= |ms|
  {
    if n == 0 then 0 else ContentBytes(ms, n - 1) + |ms[n - 1].content|
  }

  ghost predicate ValidRoles(ms: seq<Message>, n: nat)
    requires n <= |ms|
  {
    forall i :: 0 <= i < n ==> ms[i].role in ROLE_LABELS
  }

  ghost predicate Admissible(ms: seq<Message>) {
    UniqueIds(ms, |ms|) && ValidRoles(ms, |ms|) && ContentBytes(ms, |ms|) <= MAX_IMPORT_CONTENT_BYTES
  }

  /** The table holds the first `n` messages under their own ids, and nothing else. */
  ghost predicate Tabulates(table: ById, ms: seq<Message>, n: nat)
    requires n <= |ms|
  {
    && (forall i :: 0 <= i < n ==> Lookup(table, ms[i].id) == Some(ms[i]))
    && forall id :: id in table ==> table[id].id == id && exists i :: 0 <= i < n && ms[i].id == id
  }

  lemma {:induction false} ContentGrows(ms: seq<Message>, n: nat, m: nat)
    requires n <= m <= |ms|
    ensures ContentBytes(ms, n) <= ContentBytes(ms, m)
  {
    if n < m {
      ContentGrows(ms, n, m - 1);
    }
  }

  lemma TabulateOne(table: ById, ms: seq<Message>, n: nat)
    requires n < |ms| && Tabulates(table, ms, n) && UniqueIds(ms, n) && ms[n].id !in table
    ensures Tabulates(table[ms[n].id := ms[n]], ms, n + 1) && UniqueIds(ms, n + 1)
  {
    forall i | 0 <= i < n ensures ms[i].id != ms[n].id {
      assert Lookup(table, ms[i].id) == Some(ms[i]);
    }
  }

  lemma NotUnique(table: ById, ms: seq<Message>, n: nat)
    requires n < |ms| && Tabulates(table, ms, n) && ms[n].id in table
    ensures !UniqueIds(ms, |ms|)
  {
    var i :| 0 <= i < n && ms[i].id == ms[n].id;
  }

  /** The messages by their ids. */
  function TableOf(ms: seq<Message>, n: nat): ById
    requires n <= |ms|
  {
    if n == 0 then map[] else TableOf(ms, n - 1)[ms[n - 1].id := ms[n - 1]]
  }

  method Tabulate(ms: seq<Message>) returns (r: Result<ById, ImportError>)
    ensures r.Ok? <==> Admissible(ms)
    ensures r.Ok? ==> r.value == TableOf(ms, |ms|) && Tabulates(r.value, ms, |ms|)
    ensures r.Err? ==> r.error == DuplicateId || r.error == InvalidRole || r.error == TooLarge
  {
    var table: ById := map[];
    var total := 0;
    for i := 0 to |ms|
      invariant table == TableOf(ms, i) && Tabulates(table, ms, i) && UniqueIds(ms, i) && ValidRoles(ms, i)
      invariant total == ContentBytes(ms, i) <= MAX_IMPORT_CONTENT_BYTES
    {
      var raw := ms[i];
      if raw.id in table {
        NotUnique(table, ms, i);
        return Err(DuplicateId);
      }
      if raw.role !in ROLE_LABELS {
        return Err(InvalidRole);
      }
      total := total + |raw.content|;
      ContentGrows(ms, i + 1, |ms|);
      if total > MAX_IMPORT_CONTENT_BYTES {
        return Err(TooLarge);
      }
      TabulateOne(table, ms, i);
      table := table[raw.id := raw];
    }
    return Ok(table);
  }

  // ---- trees ----

  ghost predicate ParentsExist(table: ById) {
    forall id :: id in table && table[id].parent.Some? ==> table[id].parent.value in table
  }

  /** Each message's parent is the next one. */
  ghost predicate Climbs(table: ById, ids: seq<Id>) {
    && (forall i :: 0 <= i < |ids| ==> ids[i] in table)
    && forall i :: 0 <= i < |ids| - 1 ==> table[ids[i]].parent == Some(ids[i + 1])
  }

  ghost predicate HasCycle(table: ById) {
    exists ids: seq<Id> :: |ids| >= 2 && Climbs(table, ids) && ids[0] == ids[|ids| - 1]
  }

  /** Every message is listed after its parent. */
  ghost predicate ParentsBefore(ordered: seq<Message>) {
    forall i :: 0 <= i < |ordered| && ordered[i].parent.Some? ==>
      exists j :: 0 <= j < i && ordered[j].id == ordered[i].parent.value
  }

  ghost predicate Placed(ordered: seq<Message>, id: Id) {
    exists i :: 0 <= i < |ordered| && ordered[i].id == id
  }

  /** What has been listed so far: messages of the table, once each, parents first. */
  ghost predicate Listed(table: ById, ordered: seq<Message>) {
    && (forall i :: 0 <= i < |ordered| ==> ordered[i].id in table && table[ordered[i].id] == ordered[i])
    && UniqueIds(ordered, |ordered|) && ParentsBefore(ordered)
  }

  lemma {:induction false} ClimbingGoesBack(table: ById, ordered: seq<Message>, ids: seq<Id>, i: nat, n: nat) returns (j: nat)
    requires Listed(table, ordered) && Climbs(table, ids) && n < |ids|
    requires i < |ordered| && ordered[i].id == ids[0]
    ensures j <= i && ordered[j].id == ids[n] && (n > 0 ==> j < i)
  {
    if n == 0 {
      return i;
    }
    var k := ClimbingGoesBack(table, ordered, ids, i, n - 1);
    assert table[ids[n - 1]].parent == Some(ids[n]);
    j :| 0 <= j < k && ordered[j].id == ordered[k].parent.value;
  }

  lemma ParentsFirstMeansNoCycle(table: ById, ordered: seq<Message>)
    requires Listed(table, ordered) && forall id :: id in table ==> Placed(ordered, id)
    ensures ParentsExist(table) && !HasCycle(table)
  {
    forall id | id in table && table[id].parent.Some? ensures table[id].parent.value in table {
      var i :| 0 <= i < |ordered| && ordered[i].id == id;
      var j :| 0 <= j < i && ordered[j].id == ordered[i].parent.value;
    }
    forall ids: seq<Id> | |ids| >= 2 && Climbs(table, ids) ensures ids[0] != ids[|ids| - 1] {
      var i :| 0 <= i < |ordered| && ordered[i].id == ids[0];
      var j := ClimbingGoesBack(table, ordered, ids, i, |ids| - 1);
    }
  }

  function Ids(chain: seq<Id>): set<Id> {
    set id | id in chain
  }

  /** A path upwards through messages that are not listed yet. */
  ghost predicate Unlisted(table: ById, placed: set<Id>, chain: seq<Id>) {
    && Climbs(table, chain)
    && (forall i, j :: 0 <= i < j < |chain| ==> chain[i] != chain[j])
    && forall i :: 0 <= i < |chain| ==> chain[i] !in placed
  }

  /** Where a path upwards leads next. */
  function Above(table: ById, chain: seq<Id>): Option<Id>
    requires chain != [] && chain[|chain| - 1] in table
  {
    table[chain[|chain| - 1]].parent
  }

  lemma ClimbOne(table: ById, placed: set<Id>, chain: seq<Id>, id: Id, longer: seq<Id>)
    requires Unlisted(table, placed, chain) && id in table && id !in placed && id !in chain
    requires chain != [] ==> Above(table, chain) == Some(id)
    requires longer == chain + [id]
    ensures Unlisted(table, placed, longer)
  {
    forall i | 0 <= i < |longer| - 1 ensures table[longer[i]].parent == Some(longer[i + 1]) {
      assert longer[i] == chain[i];
    }
    forall i, j | 0 <= i < j < |longer| ensures longer[i] != longer[j] {
      assert longer[i] == chain[i] && chain[i] in chain;
    }
  }

  lemma ClimbEnds(table: ById, chain: seq<Id>, id: Id)
    requires id in table && id !in chain
    ensures |table.Keys - Ids(chain + [id])| < |table.Keys - Ids(chain)|
  {
    assert Ids(chain + [id]) == Ids(chain) + {id};
    Fewer(table.Keys - Ids(chain), table.Keys - Ids(chain + [id]), id);
  }

  lemma Fewer<T>(a: set<T>, b: set<T>, x: T)
    requires x in a && b == a - {x}
    ensures |b| < |a|
  {
  }

  lemma ClosesCycle(table: ById, chain: seq<Id>, id: Id)
    requires chain != [] && Climbs(table, chain) && id in chain && Above(table, chain) == Some(id)
    ensures HasCycle(table)
  {
    var k :| 0 <= k < |chain| && chain[k] == id;
    var cycle := chain[k..] + [id];
    forall i | 0 <= i < |cycle| - 1 ensures table[cycle[i]].parent == Some(cycle[i + 1]) {
      assert cycle[i] == chain[k + i];
    }
    assert Climbs(table, cycle) && cycle[0] == cycle[|cycle| - 1];
  }

  /** The inner loop of `_parents_first`: climb to a message that has no parent or is already listed. */
  method ClimbFrom(table: ById, placed: set<Id>, start: Id) returns (r: Result<seq<Id>, ImportError>)
    requires start in table
    ensures r == Err(MissingParent) ==> !ParentsExist(table)
    ensures r == Err(Cycle) ==> HasCycle(table)
    ensures r.Err? ==> r.error == MissingParent || r.error == Cycle
    ensures r.Ok? ==> Unlisted(table, placed, r.value) && (start in placed || start in r.value)
    ensures r.Ok? && r.value != [] ==> Above(table, r.value).None? || Above(table, r.value).value in placed
  {
    var chain: seq<Id> := [];
    var current := Some(start);
    while current.Some? && current.value !in placed
      invariant Unlisted(table, placed, chain)
      invariant if chain == [] then current == Some(start) else chain[0] == start && current == Above(table, chain)
      decreases |table.Keys - Ids(chain)|
    {
      if current.value !in table {
        return Err(MissingParent);
      }
      if current.value in chain {
        ClosesCycle(table, chain, current.value);
        return Err(Cycle);
      }
      ClimbOne(table, placed, chain, current.value, chain + [current.value]);
      ClimbEnds(table, chain, current.value);
      chain := chain + [current.value];
      current := table[current.value].parent;
    }
    return Ok(chain);
  }

  ghost predicate Keyed(table: ById) {
    forall id :: id in table ==> table[id].id == id
  }

  lemma ListOne(table: ById, ordered: seq<Message>, id: Id, next: seq<Message>)
    requires Keyed(table) && Listed(table, ordered) && id in table && !Placed(ordered, id)
    requires table[id].parent.None? || Placed(ordered, table[id].parent.value)
    requires next == ordered + [table[id]]
    ensures Listed(table, next)
    ensures forall q :: Placed(next, q) <==> Placed(ordered, q) || q == id
  {
    forall q ensures Placed(next, q) <==> Placed(ordered, q) || q == id {
      if Placed(ordered, q) {
        var i :| 0 <= i < |ordered| && ordered[i].id == q;
        assert next[i].id == q;
      }
      assert next[|ordered|].id == id;
    }
    forall i | 0 <= i < |next| && next[i].parent.Some?
      ensures exists j :: 0 <= j < i && next[j].id == next[i].parent.value
    {
      if i < |ordered| {
        var j :| 0 <= j < i && ordered[j].id == ordered[i].parent.value;
        assert next[j] == ordered[j];
      } else {
        var j :| 0 <= j < |ordered| && ordered[j].id == table[id].parent.value;
        assert next[j] == ordered[j];
      }
    }
  }

  /** `for item in reversed(chain)`: list a path from its top down. */
  method ListReversed(table: ById, before: seq<Message>, ghost placed: set<Id>, chain: seq<Id>) returns (ordered: seq<Message>)
    requires Keyed(table) && Listed(table, before) && Unlisted(table, placed, chain)
    requires forall id :: id in placed <==> Placed(before, id)
    requires chain != [] ==> Above(table, chain).None? || Above(table, chain).value in placed
    ensures Listed(table, ordered)
    ensures forall id :: Placed(ordered, id) <==> Placed(before, id) || id in chain
  {
    ordered := before;
    var n := |chain|;
    while n > 0
      invariant 0 <= n <= |chain|
      invariant Listed(table, ordered)
      invariant forall id :: Placed(ordered, id) <==> Placed(before, id) || id in chain[n..]
    {
      n := n - 1;
      assert chain[n..] == [chain[n]] + chain[n + 1..];
      if n + 1 < |chain| {
        assert chain[n + 1] in chain[n + 1..];
      }
      var next := ordered + [table[chain[n]]];
      ListOne(table, ordered, chain[n], next);
      ordered := next;
    }
  }

  /** The ordering is the messages themselves, each once, every parent before its children. */
  ghost predicate IsParentsFirst(ms: seq<Message>, ordered: seq<Message>) {
    multiset(ordered) == multiset(ms) && UniqueIds(ordered, |ordered|) && ParentsBefore(ordered)
  }

  /** Admissible messages whose parents all exist, none of them its own ancestor. */
  ghost predicate IsForest(ms: seq<Message>) {
    Admissible(ms) && ParentsExist(TableOf(ms, |ms|)) && !HasCycle(TableOf(ms, |ms|))
  }

  /** `_parents_first`: it succeeds exactly when every parent exists and no message is its own ancestor. */
  method ParentsFirst(ms: seq<Message>) returns (r: Result<seq<Message>, ImportError>)
    ensures r.Ok? <==> IsForest(ms)
    ensures r.Ok? ==> IsParentsFirst(ms, r.value)
    ensures r == Err(MissingParent) ==> Admissible(ms) && !ParentsExist(TableOf(ms, |ms|))
    ensures r == Err(Cycle) ==> Admissible(ms) && HasCycle(TableOf(ms, |ms|))
  {
    var tabulated := Tabulate(ms);
    if tabulated.Err? {
      return Err(tabulated.error);
    }
    var byId := tabulated.value;
    var ordered: seq<Message> := [];
    var placed: set<Id> := {};
    for i := 0 to |ms|
      invariant Listed(byId, ordered)
      invariant forall id :: id in placed <==> Placed(ordered, id)
      invariant forall j :: 0 <= j < i ==> ms[j].id in placed
    {
      assert Lookup(byId, ms[i].id) == Some(ms[i]);
      var climbed := ClimbFrom(byId, placed, ms[i].id);
      if climbed.Err? {
        return Err(climbed.error);
      }
      ordered := ListReversed(byId, ordered, placed, climbed.value);
      placed := placed + Ids(climbed.value);
    }
    forall id | id in byId ensures Placed(ordered, id) {
      var i :| 0 <= i < |ms| && ms[i].id == id;
      assert id in placed;
    }
    ParentsFirstMeansNoCycle(byId, ordered);
    SameMessages(byId, ms, ordered);
    return Ok(ordered);
  }

  lemma Occurrences(ms: seq<Message>, m: Message)
    requires UniqueIds(ms, |ms|)
    ensures multiset(ms)[m] == if m in ms then 1 else 0
  {
    if m in ms {
      var i :| 0 <= i < |ms| && ms[i] == m;
      assert ms == ms[..i] + [m] + ms[i + 1..];
      assert m !in ms[..i] && m !in ms[i + 1..];
    }
  }

  lemma SameMessages(table: ById, ms: seq<Message>, ordered: seq<Message>)
    requires Tabulates(table, ms, |ms|) && UniqueIds(ms, |ms|)
    requires Listed(table, ordered) && forall id :: id in table ==> Placed(ordered, id)
    ensures multiset(ordered) == multiset(ms)
  {
    forall m ensures multiset(ordered)[m] == multiset(ms)[m] {
      Occurrences(ms, m);
      Occurrences(ordered, m);
      if m in ms {
        var i :| 0 <= i < |ms| && ms[i] == m;
        assert Lookup(table, ms[i].id) == Some(m);
        var j :| 0 <= j < |ordered| && ordered[j].id == m.id;
        assert ordered[j] == m;
      }
      if m in ordered {
        var j :| 0 <= j < |ordered| && ordered[j] == m;
        var i :| 0 <= i < |ms| && ms[i].id == m.id;
        assert ms[i] == m;
      }
    }
  }

  // ---- the import ----

  /** A stored message and the name of its parent. */
  datatype Stored = Stored(parent: Option<nat>, role: string, content: Bytes)

  class Storage {
    var messages: map<nat, Stored>
    var nextId: nat

    constructor ()
      ensures Valid() && messages == map[]
    {
      messages, nextId := map[], 1;
    }

    ghost predicate Valid()
      reads this
    {
      forall id :: id in messages ==> id < nextId
    }

    method AddMessage(role: string, content: Bytes, parent: Option<nat>) returns (id: nat)
      requires Valid()
      modifies this
      ensures Valid() && id !in old(messages) && messages == old(messages)[id := Stored(parent, role, content)]
    {
      id := nextId;
      messages := messages[id := Stored(parent, role, content)];
      nextId := nextId + 1;
    }

    /** `import_json`, its messages: the tree is validated before anything is stored. */
    method ImportJson(ms: seq<Message>) returns (r: Result<map<Id, nat>, ImportError>, ghost ordered: seq<Message>)
      requires Valid()
      modifies this
      ensures Valid()
      ensures r.Ok? <==> |ms| <= 100_000 && IsForest(ms)
      ensures r.Ok? ==> ContentBytes(ms, |ms|) <= 10_485_760 && forall i :: 0 <= i < |ms| ==> ms[i].role in {"system", "user", "assistant"}
      ensures r.Err? ==> messages == old(messages)
      ensures r.Ok? ==> IsParentsFirst(ms, ordered) && Isomorphic(ordered, |ordered|, r.value, messages, old(messages))
    {
      if |ms| > MAX_IMPORT_MESSAGES {
        return Err(TooMany), [];
      }
      var sorted := ParentsFirst(ms);
      if sorted.Err? {
        return Err(sorted.error), [];
      }
      ordered := sorted.value;
      var oldToNew := ImportMessages(sorted.value);
      r := Ok(oldToNew);
    }

    /** The message loop of `import_json`: the imported tree is the exported one under new names, beside whatever
        was stored before. */
    method ImportMessages(ordered: seq<Message>) returns (oldToNew: map<Id, nat>)
      requires Valid() && UniqueIds(ordered, |ordered|) && ParentsBefore(ordered)
      modifies this
      ensures Valid()
      ensures Isomorphic(ordered, |ordered|, oldToNew, messages, old(messages))
    {
      oldToNew := map[];
      for n := 0 to |ordered|
        invariant Valid()
        invariant Isomorphic(ordered, n, oldToNew, messages, old(messages))
      {
        var raw := ordered[n];
        var parent := if raw.parent.None? then None else Lookup(oldToNew, raw.parent.value);
        ghost var before := messages;
        var id := AddMessage(raw.role, raw.content, parent);
        ImportOne(ordered, n, oldToNew, before, old(messages), id, Stored(parent, raw.role, raw.content));
        oldToNew := oldToNew[raw.id := id];
      }
    }
  }

  function NewParent(oldToNew: map<Id, nat>, m: Message): Option<nat> {
    if m.parent.None? then None else Lookup(oldToNew, m.parent.value)
  }

  /** The table names exactly the first `n` messages, each by a name of its own. */
  ghost predicate Renames(ordered: seq<Message>, n: nat, oldToNew: map<Id, nat>)
    requires n <= |ordered|
  {
    && (forall i :: 0 <= i < n ==> ordered[i].id in oldToNew)
    && (forall id :: id in oldToNew ==> exists i :: 0 <= i < n && ordered[i].id == id)
    && (forall a, b :: a in oldToNew && b in oldToNew && a != b ==> oldToNew[a] != oldToNew[b])
  }

  predicate StoredAs(m: Message, oldToNew: map<Id, nat>, now: map<nat, Stored>) {
    && m.id in oldToNew && (m.parent.Some? ==> m.parent.value in oldToNew)
    && oldToNew[m.id] in now
    && var s := now[oldToNew[m.id]];
       && s.parent == (match m.parent case None => None case Some(above) => Some(oldToNew[above]))
       && s.role == m.role && s.content == m.content
  }

  /** The store gained exactly the new names. */
  ghost predicate Gained(oldToNew: map<Id, nat>, now: map<nat, Stored>, was: map<nat, Stored>) {
    && (forall id :: id in oldToNew ==> oldToNew[id] in now && oldToNew[id] !in was)
    && (forall k :: k in now && k !in was ==> exists id :: id in oldToNew && oldToNew[id] == k)
    && (forall k :: k in was ==> Lookup(now, k) == Lookup(was, k))
  }

  /** The first `n` messages stand in the store under distinct new names, with their roles and contents, each below the new
      name of its own parent; the rest of the store is as it was. */
  ghost predicate Isomorphic(ordered: seq<Message>, n: nat, oldToNew: map<Id, nat>, now: map<nat, Stored>, was: map<nat, Stored>)
    requires n <= |ordered|
  {
    && Renames(ordered, n, oldToNew)
    && (forall i :: 0 <= i < n ==> StoredAs(ordered[i], oldToNew, now))
    && Gained(oldToNew, now, was)
  }

  /** What an isomorphic copy holds: each message under its new id, with its role and content, below the new id of its
      parent; nothing else was added and nothing that was there has changed. */
  lemma CopyMeaning(ordered: seq<Message>, n: nat, oldToNew: map<Id, nat>, now: map<nat, Stored>, was: map<nat, Stored>, i: nat)
    requires n <= |ordered| && Isomorphic(ordered, n, oldToNew, now, was) && i < n
    ensures var m := ordered[i];
            && m.id in oldToNew && oldToNew[m.id] in now && oldToNew[m.id] !in was
            && now[oldToNew[m.id]].role == m.role && now[oldToNew[m.id]].content == m.content
            && (m.parent.None? ==> now[oldToNew[m.id]].parent == None)
            && (m.parent.Some? ==> m.parent.value in oldToNew && now[oldToNew[m.id]].parent == Some(oldToNew[m.parent.value]))
            && (forall j :: 0 <= j < n && ordered[j].id != m.id ==> ordered[j].id in oldToNew && oldToNew[ordered[j].id] != oldToNew[m.id])
    ensures forall k :: k in was ==> k in now && now[k] == was[k]
    ensures forall k :: k in now && k !in was ==> exists j :: 0 <= j < n && ordered[j].id in oldToNew && oldToNew[ordered[j].id] == k
  {
    assert StoredAs(ordered[i], oldToNew, now);
    forall k | k in was ensures k in now && now[k] == was[k] {
      assert Lookup(now, k) == Lookup(was, k);
    }
  }

  lemma RenameOne(ordered: seq<Message>, n: nat, oldToNew: map<Id, nat>, id: nat)
    requires n < |ordered| && UniqueIds(ordered, |ordered|) && Renames(ordered, n, oldToNew)
    requires forall q :: q in oldToNew ==> oldToNew[q] != id
    ensures ordered[n].id !in oldToNew
    ensures Renames(ordered, n + 1, oldToNew[ordered[n].id := id])
  {
    var next := oldToNew[ordered[n].id := id];
    forall q | q in next ensures exists i :: 0 <= i < n + 1 && ordered[i].id == q {
      if q in oldToNew {
        var i :| 0 <= i < n && ordered[i].id == q;
      }
    }
  }

  lemma GainOne(oldToNew: map<Id, nat>, now: map<nat, Stored>, was: map<nat, Stored>, old_: Id, id: nat, m: Stored)
    requires Gained(oldToNew, now, was) && id !in now && old_ !in oldToNew
    ensures Gained(oldToNew[old_ := id], now[id := m], was)
  {
    var next := oldToNew[old_ := id];
    forall k | k in now[id := m] && k !in was ensures exists q :: q in next && next[q] == k {
      if k == id {
        assert next[old_] == k;
      } else {
        var q :| q in oldToNew && oldToNew[q] == k;
        assert next[q] == k;
      }
    }
  }

  lemma StaysStored(m: Message, oldToNew: map<Id, nat>, now: map<nat, Stored>, key: Id, id: nat, added: Stored)
    requires StoredAs(m, oldToNew, now) && key !in oldToNew && id !in now
    ensures StoredAs(m, oldToNew[key := id], now[id := added])
  {
  }

  lemma ImportOne(ordered: seq<Message>, n: nat, oldToNew: map<Id, nat>, now: map<nat, Stored>, was: map<nat, Stored>, id: nat, added: Stored)
    requires n < |ordered| && UniqueIds(ordered, |ordered|) && ParentsBefore(ordered)
    requires Isomorphic(ordered, n, oldToNew, now, was) && id !in now
    requires added == Stored(NewParent(oldToNew, ordered[n]), ordered[n].role, ordered[n].content)
    ensures Isomorphic(ordered, n + 1, oldToNew[ordered[n].id := id], now[id := added], was)
  {
    var raw := ordered[n];
    RenameOne(ordered, n, oldToNew, id);
    GainOne(oldToNew, now, was, raw.id, id, added);
    forall i | 0 <= i < n ensures StoredAs(ordered[i], oldToNew[raw.id := id], now[id := added]) {
      StaysStored(ordered[i], oldToNew, now, raw.id, id, added);
    }
    NewIsStored(ordered, n, oldToNew, now, id, added);
  }

  lemma NewIsStored(ordered: seq<Message>, n: nat, oldToNew: map<Id, nat>, now: map<nat, Stored>, id: nat, added: Stored)
    requires n < |ordered| && ParentsBefore(ordered) && Renames(ordered, n, oldToNew) && ordered[n].id !in oldToNew
    requires added == Stored(NewParent(oldToNew, ordered[n]), ordered[n].role, ordered[n].content)
    ensures StoredAs(ordered[n], oldToNew[ordered[n].id := id], now[id := added])
  {
    if ordered[n].parent.Some? {
      var j :| 0 <= j < n && ordered[j].id == ordered[n].parent.value;
    }
  }
}
