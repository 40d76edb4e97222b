/**
  Eager loading (the loaders of backend/ent/account_query.go).

  Each loader replaces one query per node by a single batched query and an index.  A node is
  identified by its position in the list of nodes; a batched query is a function from the requested
  keys to the rows it returns.
*/
module EagerLoad {
  import opened Common

  // ----- many-to-one: loadProxy, loadParent

  /** The distinct foreign keys, in order of first appearance. */
  function Requested(fks: seq<Option<int>>): seq<int> {
    if fks == [] then []
    else
      var init, fk := Requested(fks[..|fks| - 1]), fks[|fks| - 1];
      if fk.None? || fk.value in init then init else init + [fk.value]
  }

  /** The rows that a many-to-one loader gets to see; with no key to ask for it asks nothing. */
  function Answer<E>(fks: seq<Option<int>>, query: seq<int> -> seq<E>): seq<E> {
    if Requested(fks) == [] then [] else query(Requested(fks))
  }

  function OneSpec<E>(fk: Option<int>, neighbors: seq<E>, idOf: E -> int): Option<E> {
    if fk.None? then None else LastWith(neighbors, idOf, fk.value)
  }

  lemma {:induction false} RequestedMembers(fks: seq<Option<int>>)
    ensures forall k :: k in Requested(fks) <==> Some(k) in fks
  {
    if fks != [] {
      RequestedMembers(fks[..|fks| - 1]);
      assert fks == fks[..|fks| - 1] + [fks[|fks| - 1]];
    }
  }

  lemma RequestedAt(fks: seq<Option<int>>, k: nat)
    requires k < |fks|
    ensures fks[k].None? || fks[k].value in Requested(fks)
  {
    RequestedMembers(fks);
    assert fks[k] in fks;
    assert fks[k].None? || fks[k] == Some(fks[k].value);
  }

  /** `nodeids` lists, for every foreign key, the nodes that hold it. */
  ghost predicate IsKeyIndex(fks: seq<Option<int>>, nodeids: map<int, seq<nat>>) {
    && (forall fk :: fk in nodeids <==> fk in Requested(fks))
    && (forall fk :: fk in nodeids ==> ListsHolders(fks, fk, nodeids[fk]))
  }

  ghost predicate ListsHolders(fks: seq<Option<int>>, fk: int, holders: seq<nat>) {
    forall k: nat :: k in holders <==> k < |fks| && fks[k] == Some(fk)
  }

  lemma KeyIndexStep(fks: seq<Option<int>>, fk: int, nodeids: map<int, seq<nat>>, nodeids': map<int, seq<nat>>)
    requires IsKeyIndex(fks, nodeids)
    requires nodeids' == nodeids[fk := (if fk in nodeids then nodeids[fk] else []) + [|fks|]]
    ensures IsKeyIndex(fks + [Some(fk)], nodeids')
  {
    var fks' := fks + [Some(fk)];
    assert fks'[..|fks|] == fks;
    RequestedMembers(fks);
    forall f | f in nodeids'
      ensures ListsHolders(fks', f, nodeids'[f])
    {
      assert f in nodeids ==> ListsHolders(fks, f, nodeids[f]);
    }
  }

  lemma KeyIndexSkip(fks: seq<Option<int>>, nodeids: map<int, seq<nat>>)
    requires IsKeyIndex(fks, nodeids)
    ensures IsKeyIndex(fks + [None], nodeids)
  {
    var fks' := fks + [None];
    assert fks'[..|fks|] == fks;
    forall f | f in nodeids
      ensures ListsHolders(fks', f, nodeids[f])
    {
      assert ListsHolders(fks, f, nodeids[f]);
    }
  }

  method IndexForeignKeys(fks: seq<Option<int>>) returns (ids: seq<int>, nodeids: map<int, seq<nat>>)
    ensures ids == Requested(fks) && IsKeyIndex(fks, nodeids)
  {
    ids, nodeids := [], map[];
    for i := 0 to |fks|
      invariant ids == Requested(fks[..i]) && IsKeyIndex(fks[..i], nodeids)
    {
      ghost var was := nodeids;
      assert fks[..i + 1][..i] == fks[..i];
      assert fks[..i + 1] == fks[..i] + [fks[i]];
      if fks[i].None? {
        KeyIndexSkip(fks[..i], nodeids);
      } else {
        var fk := fks[i].value;
        if fk !in nodeids {
          ids := ids + [fk];
          nodeids := nodeids[fk := []];
        }
        nodeids := nodeids[fk := nodeids[fk] + [i]];
        KeyIndexStep(fks[..i], fk, was, nodeids);
      }
    }
    assert fks[..|fks|] == fks;
  }

  ghost predicate AllOne<E>(fks: seq<Option<int>>, neighbors: seq<E>, idOf: E -> int, edges: seq<Option<E>>) {
    |edges| == |fks| && forall k :: 0 <= k < |fks| ==> edges[k] == OneSpec(fks[k], neighbors, idOf)
  }

  /**
    Every node gets the last returned row whose ID is its foreign key.  The load fails exactly when
    a returned row answers no foreign key.
  */
  method LoadToOne<E>(fks: seq<Option<int>>, query: seq<int> -> seq<E>, idOf: E -> int)
    returns (r: Result<seq<Option<E>>, int>)
    ensures r.Err? <==> exists n :: n in Answer(fks, query) && idOf(n) !in Requested(fks)
    ensures r.Ok? ==> AllOne(fks, Answer(fks, query), idOf, r.value)
  {
    var ids, nodeids := IndexForeignKeys(fks);
    var edges: seq<Option<E>> := seq(|fks|, i => None);
    if |ids| == 0 {
      forall k | 0 <= k < |fks|
        ensures fks[k].None?
      {
        RequestedAt(fks, k);
      }
      return Ok(edges);
    }
    var neighbors := query(ids);
    for n := 0 to |neighbors|
      invariant forall x :: x in neighbors[..n] ==> idOf(x) in Requested(fks)
      invariant AllOne(fks, neighbors[..n], idOf, edges)
    {
      var neighbor := neighbors[n];
      var id := idOf(neighbor);
      if id !in nodeids {
        assert neighbor in Answer(fks, query);
        return Err(id);
      }
      ghost var was := edges;
      assert ListsHolders(fks, id, nodeids[id]);
      edges := AssignAll(edges, nodeids[id], neighbor, |fks|);
      assert neighbors[..n + 1] == neighbors[..n] + [neighbor];
      assert neighbors[..n + 1][..n] == neighbors[..n];
      assert AllOne(fks, neighbors[..n + 1], idOf, edges);
    }
    assert neighbors[..|neighbors|] == neighbors;
    return Ok(edges);
  }

  /** The inner loop: one returned row goes to every node that holds its ID. */
  method AssignAll<E>(was: seq<Option<E>>, holders: seq<nat>, neighbor: E, ghost count: nat)
    returns (edges: seq<Option<E>>)
    requires |was| == count && forall k :: k in holders ==> k < count
    ensures |edges| == count
    ensures forall k :: 0 <= k < count ==> edges[k] == if k in holders then Some(neighbor) else was[k]
  {
    edges := was;
    for i := 0 to |holders|
      invariant |edges| == count
      invariant forall k :: 0 <= k < count ==> edges[k] == if k in holders[..i] then Some(neighbor) else was[k]
    {
      assert holders[..i + 1] == holders[..i] + [holders[i]];
      assert holders[i] in holders;
      edges := edges[holders[i] := Some(neighbor)];
    }
    assert holders[..|holders|] == holders;
  }

  // ----- one-to-many: loadChildren, loadUsageLogs, loadAccountGroups

  function KeyIs<E>(fkOf: E -> Option<int>, id: int): E -> bool {
    n => fkOf(n) == Some(id)
  }

  /** The returned rows that belong to node k; the last node with an ID takes them all. */
  function ManySpec<E>(ids: seq<int>, k: nat, neighbors: seq<E>, fkOf: E -> Option<int>): seq<E>
    requires k < |ids|
  {
    if IsLast(ids, k) then Filter(neighbors, KeyIs(fkOf, ids[k])) else []
  }

  ghost predicate IsIndex(ids: seq<int>, byId: map<int, nat>) {
    && (forall id :: id in byId <==> id in ids)
    && (forall id :: id in byId ==> byId[id] < |ids| && ids[byId[id]] == id && IsLast(ids, byId[id]))
  }

  /** Indexes nodes by ID; a later node replaces an earlier one with the same ID. */
  method IndexNodes(ids: seq<int>) returns (byId: map<int, nat>)
    ensures IsIndex(ids, byId)
  {
    byId := map[];
    for i := 0 to |ids|
      invariant IsIndex(ids[..i], byId)
    {
      assert ids[..i + 1] == ids[..i] + [ids[i]];
      byId := byId[ids[i] := i];
    }
    assert ids[..|ids|] == ids;
  }

  lemma LastIsUnique(ids: seq<int>, j: nat, k: nat)
    requires j < |ids| && k < |ids| && ids[j] == ids[k] && IsLast(ids, j) && IsLast(ids, k)
    ensures j == k
  {
  }

  ghost predicate AllMany<E>(ids: seq<int>, neighbors: seq<E>, fkOf: E -> Option<int>, edges: seq<seq<E>>) {
    |edges| == |ids| && forall k :: 0 <= k < |ids| ==> edges[k] == ManySpec(ids, k, neighbors, fkOf)
  }

  predicate KnownKey(ids: seq<int>, fk: Option<int>) {
    fk.Some? && fk.value in ids
  }

  /**
    Every node gets the order-preserving selection of the rows that refer to it.  The load fails
    exactly when a returned row has no foreign key or an unknown one.
  */
  method LoadToMany<E>(ids: seq<int>, query: seq<int> -> seq<E>, fkOf: E -> Option<int>)
    returns (r: Result<seq<seq<E>>, E>)
    ensures r.Err? <==> exists n :: n in query(ids) && !KnownKey(ids, fkOf(n))
    ensures r.Ok? ==> AllMany(ids, query(ids), fkOf, r.value)
  {
    var nodeids := IndexNodes(ids);
    var edges: seq<seq<E>> := seq(|ids|, i => []);
    var neighbors := query(ids);
    for n := 0 to |neighbors|
      invariant forall x :: x in neighbors[..n] ==> KnownKey(ids, fkOf(x))
      invariant AllMany(ids, neighbors[..n], fkOf, edges)
    {
      var neighbor := neighbors[n];
      var fk := fkOf(neighbor);
      if fk.None? {
        return Err(neighbor);
      }
      var f: int := fk.value;
      if f !in nodeids {
        assert f !in ids;
        return Err(neighbor);
      }
      var node := nodeids[f];
      assert ids[node] == f;
      edges := edges[node := edges[node] + [neighbor]];
      assert neighbors[..n + 1] == neighbors[..n] + [neighbor];
      assert neighbors[..n + 1][..n] == neighbors[..n];
      forall k | 0 <= k < |ids|
        ensures edges[k] == ManySpec(ids, k, neighbors[..n + 1], fkOf)
      {
        if IsLast(ids, k) && ids[k] == f {
          LastIsUnique(ids, k, node);
        }
      }
    }
    assert neighbors[..|neighbors|] == neighbors;
    return Ok(edges);
  }

  function ManyLists<E>(ids: seq<int>, neighbors: seq<E>, fkOf: E -> Option<int>): seq<seq<E>> {
    seq(|ids|, k requires 0 <= k < |ids| => ManySpec(ids, k, neighbors, fkOf))
  }

  lemma {:induction false} FlattenOneMore<E>(lists: seq<seq<E>>, lists': seq<seq<E>>, k: nat, e: E)
    requires k < |lists| && lists' == lists[k := lists[k] + [e]]
    ensures multiset(Flatten(lists')) == multiset(Flatten(lists)) + multiset{e}
  {
    var n := |lists| - 1;
    if k == n {
      assert lists'[..n] == lists[..n];
    } else {
      FlattenOneMore(lists[..n], lists'[..n], k, e);
    }
  }

  lemma {:induction false} LastWithId(ids: seq<int>, id: int) returns (k: nat)
    requires id in ids
    ensures k < |ids| && ids[k] == id && IsLast(ids, k)
  {
    var n := |ids| - 1;
    if ids[n] == id {
      k := n;
    } else {
      assert ids == ids[..n] + [ids[n]];
      k := LastWithId(ids[..n], id);
      assert forall j :: k < j < n ==> ids[..n][j] == ids[j];
    }
  }

  /** One more returned row extends the list of the last node that has its key, and no other. */
  lemma ManyListsStep<E>(ids: seq<int>, init: seq<E>, e: E, fkOf: E -> Option<int>, k: nat)
    requires k < |ids| && IsLast(ids, k) && fkOf(e) == Some(ids[k])
    ensures
      var lists := ManyLists(ids, init, fkOf);
      ManyLists(ids, init + [e], fkOf) == lists[k := lists[k] + [e]]
  {
    var lists, lists' := ManyLists(ids, init, fkOf), ManyLists(ids, init + [e], fkOf);
    assert (init + [e])[..|init|] == init;
    forall j | 0 <= j < |ids|
      ensures lists'[j] == if j == k then lists[j] + [e] else lists[j]
    {
      if IsLast(ids, j) && ids[j] == ids[k] {
        LastIsUnique(ids, j, k);
      }
    }
  }

  /** No returned row is lost or duplicated: together the lists are exactly the returned rows. */
  lemma {:induction false} LoadToManyConserves<E>(ids: seq<int>, neighbors: seq<E>, fkOf: E -> Option<int>)
    requires forall n :: n in neighbors ==> KnownKey(ids, fkOf(n))
    ensures multiset(Flatten(ManyLists(ids, neighbors, fkOf))) == multiset(neighbors)
  {
    if neighbors == [] {
      FlattenOfEmpty(ManyLists(ids, neighbors, fkOf));
    } else {
      var init, e := neighbors[..|neighbors| - 1], neighbors[|neighbors| - 1];
      assert neighbors == init + [e];
      LoadToManyConserves(ids, init, fkOf);
      var k := LastWithId(ids, fkOf(e).value);
      ManyListsStep(ids, init, e, fkOf, k);
      FlattenOneMore(ManyLists(ids, init, fkOf), ManyLists(ids, neighbors, fkOf), k, e);
    }
  }

  lemma {:induction false} FlattenOfEmpty<E>(lists: seq<seq<E>>)
    requires forall k :: 0 <= k < |lists| ==> lists[k] == []
    ensures Flatten(lists) == []
  {
    if lists != [] {
      FlattenOfEmpty(lists[..|lists| - 1]);
    }
  }

  /** With distinct node IDs every list is the order-preserving filter by foreign key. */
  lemma DistinctIdsLoadAll<E>(ids: seq<int>, k: nat, neighbors: seq<E>, fkOf: E -> Option<int>)
    requires Distinct(ids) && k < |ids|
    ensures IsLast(ids, k)
    ensures ManySpec(ids, k, neighbors, fkOf) == Filter(neighbors, KeyIs(fkOf, ids[k]))
  {
  }

  // ----- many-to-many: loadGroups

  /** A row of the joined query: the account's ID and the group. */
  datatype JoinRow<+G> = JoinRow(account: int, group: G)

  ghost predicate HasGroup<G>(rows: seq<JoinRow<G>>, idOf: G -> int, id: int) {
    exists r | r in rows :: idOf(r.group) == id
  }

  ghost predicate Joins<G>(rows: seq<JoinRow<G>>, idOf: G -> int, account: int, id: int) {
    exists r | r in rows :: r.account == account && idOf(r.group) == id
  }

  ghost function JoinedTo<G>(rows: seq<JoinRow<G>>, idOf: G -> int, account: int): G -> bool {
    g => Joins(rows, idOf, account, idOf(g))
  }

  /** Each group once, in the order of first appearance. */
  ghost function Firsts<G>(rows: seq<JoinRow<G>>, idOf: G -> int): seq<G> {
    if rows == [] then []
    else
      var init, row := rows[..|rows| - 1], rows[|rows| - 1];
      Firsts(init, idOf) + (if HasGroup(init, idOf, idOf(row.group)) then [] else [row.group])
  }

  /** The groups joined to an account, by the plain definition of the join. */
  ghost function JoinedGroups<G>(rows: seq<JoinRow<G>>, idOf: G -> int, account: int): seq<G> {
    Filter(Firsts(rows, idOf), JoinedTo(rows, idOf, account))
  }

  ghost function GroupsSpec<G>(ids: seq<int>, k: nat, rows: seq<JoinRow<G>>, idOf: G -> int): seq<G>
    requires k < |ids|
  {
    if IsLast(ids, k) then JoinedGroups(rows, idOf, ids[k]) else []
  }

  /** `nodes` are the nodes that are joined to group `id`. */
  ghost predicate IsAudience<G>(ids: seq<int>, rows: seq<JoinRow<G>>, idOf: G -> int, id: int, nodes: set<nat>) {
    forall k :: k in nodes <==> 0 <= k < |ids| && IsLast(ids, k) && Joins(rows, idOf, ids[k], id)
  }

  ghost predicate IsGroupIndex<G>(ids: seq<int>, rows: seq<JoinRow<G>>, idOf: G -> int, nids: map<int, set<nat>>) {
    && (forall id :: id in nids <==> HasGroup(rows, idOf, id))
    && (forall id :: id in nids ==> IsAudience(ids, rows, idOf, id, nids[id]))
  }

  lemma GroupIndexStep<G>(ids: seq<int>, rows: seq<JoinRow<G>>, row: JoinRow<G>, idOf: G -> int,
                          nids: map<int, set<nat>>, node: nat)
    requires IsGroupIndex(ids, rows, idOf, nids)
    requires node < |ids| && ids[node] == row.account && IsLast(ids, node)
    ensures
      var id := idOf(row.group);
      IsGroupIndex(ids, rows + [row], idOf, nids[id := (if id in nids then nids[id] else {}) + {node}])
  {
    var id, rows' := idOf(row.group), rows + [row];
    var nids' := nids[id := (if id in nids then nids[id] else {}) + {node}];
    assert forall r :: r in rows' <==> r in rows || r == row;
    forall g | g in nids'
      ensures IsAudience(ids, rows', idOf, g, nids'[g])
    {
      assert g in nids ==> IsAudience(ids, rows, idOf, g, nids[g]);
      forall k | 0 <= k < |ids| && IsLast(ids, k)
        ensures k in nids'[g] <==> Joins(rows', idOf, ids[k], g)
      {
        if ids[k] == row.account {
          LastIsUnique(ids, k, node);
        }
      }
    }
  }

  ghost predicate AllGroups<G>(ids: seq<int>, rows: seq<JoinRow<G>>, idOf: G -> int, neighbors: seq<G>,
                               edges: seq<seq<G>>) {
    && |edges| == |ids|
    && forall k :: 0 <= k < |ids| ==>
      edges[k] == if IsLast(ids, k) then Filter(neighbors, JoinedTo(rows, idOf, ids[k])) else []
  }

  lemma AllGroupsStep<G>(ids: seq<int>, rows: seq<JoinRow<G>>, idOf: G -> int, neighbors: seq<G>, g: G,
                         was: seq<seq<G>>, audience: set<nat>, edges: seq<seq<G>>)
    requires AllGroups(ids, rows, idOf, neighbors, was)
    requires IsAudience(ids, rows, idOf, idOf(g), audience)
    requires |edges| == |was|
    requires forall k :: 0 <= k < |was| ==> edges[k] == if k in audience then was[k] + [g] else was[k]
    ensures AllGroups(ids, rows, idOf, neighbors + [g], edges)
  {
    assert (neighbors + [g])[..|neighbors|] == neighbors;
    forall k | 0 <= k < |ids| && IsLast(ids, k)
      ensures edges[k] == Filter(neighbors + [g], JoinedTo(rows, idOf, ids[k]))
    {
      assert JoinedTo(rows, idOf, ids[k])(g) <==> k in audience;
    }
  }

  lemma {:induction false} FirstsAreGroups<G>(rows: seq<JoinRow<G>>, idOf: G -> int)
    ensures forall g :: g in Firsts(rows, idOf) ==> HasGroup(rows, idOf, idOf(g))
  {
    if rows != [] {
      var init, row := rows[..|rows| - 1], rows[|rows| - 1];
      FirstsAreGroups(init, idOf);
      assert rows == init + [row];
      assert forall r :: r in rows <==> r in init || r == row;
    }
  }

  /**
    The many-to-many loader: `byId` and `nids` are filled while the joined rows are scanned, then
    every distinct group is appended to its audience, in whatever order the set is visited.
  */
  method LoadGroups<G>(ids: seq<int>, query: seq<int> -> seq<JoinRow<G>>, idOf: G -> int) returns (edges: seq<seq<G>>)
    requires forall r :: r in query(ids) ==> r.account in ids
    ensures |edges| == |ids|
    ensures forall k :: 0 <= k < |ids| ==> edges[k] == GroupsSpec(ids, k, query(ids), idOf)
  {
    var byId := IndexNodes(ids);
    var rows := query(ids);
    var nids, neighbors := ScanJoinRows(ids, rows, idOf, byId);
    edges := AssignGroups(ids, rows, idOf, nids, neighbors);
  }

  method AssignGroups<G>(ids: seq<int>, ghost rows: seq<JoinRow<G>>, idOf: G -> int, nids: map<int, set<nat>>,
                         neighbors: seq<G>)
    returns (edges: seq<seq<G>>)
    requires IsGroupIndex(ids, rows, idOf, nids) && neighbors == Firsts(rows, idOf)
    ensures AllGroups(ids, rows, idOf, neighbors, edges)
  {
    edges := seq(|ids|, i => []);
    FirstsAreGroups(rows, idOf);
    for n := 0 to |neighbors|
      invariant AllGroups(ids, rows, idOf, neighbors[..n], edges)
    {
      var g := neighbors[n];
      assert g in neighbors;
      var id: int := idOf(g);
      assert id in nids && IsAudience(ids, rows, idOf, id, nids[id]);
      ghost var was := edges;
      edges := AppendToAll(edges, nids[id], g);
      assert neighbors[..n + 1] == neighbors[..n] + [g];
      AllGroupsStep(ids, rows, idOf, neighbors[..n], g, was, nids[id], edges);
    }
    assert neighbors[..|neighbors|] == neighbors;
  }

  method ScanJoinRows<G>(ids: seq<int>, rows: seq<JoinRow<G>>, idOf: G -> int, byId: map<int, nat>)
    returns (nids: map<int, set<nat>>, neighbors: seq<G>)
    requires IsIndex(ids, byId) && forall r :: r in rows ==> r.account in ids
    ensures IsGroupIndex(ids, rows, idOf, nids) && neighbors == Firsts(rows, idOf)
  {
    nids, neighbors := map[], [];
    for r := 0 to |rows|
      invariant IsGroupIndex(ids, rows[..r], idOf, nids) && neighbors == Firsts(rows[..r], idOf)
    {
      var row := rows[r];
      assert rows[..r + 1] == rows[..r] + [row];
      assert rows[..r + 1][..r] == rows[..r];
      assert row in rows;
      var account: int, id: int := row.account, idOf(row.group);
      GroupIndexStep(ids, rows[..r], row, idOf, nids, byId[account]);
      if id !in nids {
        nids := nids[id := {byId[account]}];
        neighbors := neighbors + [row.group];
      } else {
        nids := nids[id := nids[id] + {byId[account]}];
      }
    }
    assert rows[..|rows|] == rows;
  }

  /** Visits a set in arbitrary order, as Go ranges over a map. */
  method AppendToAll<G>(was: seq<seq<G>>, nodes: set<nat>, g: G) returns (edges: seq<seq<G>>)
    requires forall k :: k in nodes ==> k < |was|
    ensures |edges| == |was|
    ensures forall k :: 0 <= k < |was| ==> edges[k] == if k in nodes then was[k] + [g] else was[k]
  {
    edges := was;
    var todo := nodes;
    while todo != {}
      invariant todo <= nodes && |edges| == |was|
      invariant forall k :: 0 <= k < |was| ==> edges[k] == if k in nodes && k !in todo then was[k] + [g] else was[k]
      decreases todo
    {
      var k :| k in todo;
      edges := edges[k := edges[k] + [g]];
      todo := todo - {k};
    }
  }

  // ----- what the joined groups are

  /** The position at which group `id` first appears. */
  ghost function FirstAt<G>(rows: seq<JoinRow<G>>, idOf: G -> int, id: int): nat {
    if rows == [] then 0
    else if HasGroup(rows[..|rows| - 1], idOf, id) then FirstAt(rows[..|rows| - 1], idOf, id)
    else |rows| - 1
  }

  ghost predicate ByFirstAppearance<G>(rows: seq<JoinRow<G>>, idOf: G -> int, groups: seq<G>) {
    forall i, j :: 0 <= i < j < |groups| ==> FirstAt(rows, idOf, idOf(groups[i])) < FirstAt(rows, idOf, idOf(groups[j]))
  }

  lemma {:induction false} FirstAtBound<G>(rows: seq<JoinRow<G>>, idOf: G -> int, id: int)
    requires HasGroup(rows, idOf, id)
    ensures FirstAt(rows, idOf, id) < |rows| && idOf(rows[FirstAt(rows, idOf, id)].group) == id
    ensures forall i :: 0 <= i < FirstAt(rows, idOf, id) ==> idOf(rows[i].group) != id
  {
    var init, row := rows[..|rows| - 1], rows[|rows| - 1];
    assert rows == init + [row];
    if HasGroup(init, idOf, id) {
      FirstAtBound(init, idOf, id);
    } else {
      forall i | 0 <= i < |init|
        ensures idOf(rows[i].group) != id
      {
        assert init[i] in init;
      }
    }
  }

  lemma {:induction false} FirstsCover<G>(rows: seq<JoinRow<G>>, idOf: G -> int, id: int)
    requires HasGroup(rows, idOf, id)
    ensures exists g :: g in Firsts(rows, idOf) && idOf(g) == id
  {
    var init, row := rows[..|rows| - 1], rows[|rows| - 1];
    assert rows == init + [row];
    if HasGroup(init, idOf, id) {
      FirstsCover(init, idOf, id);
      var g :| g in Firsts(init, idOf) && idOf(g) == id;
      assert g in Firsts(rows, idOf);
    } else {
      assert row.group in Firsts(rows, idOf);
    }
  }

  lemma FirstAtStays<G>(init: seq<JoinRow<G>>, row: JoinRow<G>, idOf: G -> int, id: int)
    requires HasGroup(init, idOf, id)
    ensures FirstAt(init + [row], idOf, id) == FirstAt(init, idOf, id) < |init|
  {
    assert (init + [row])[..|init|] == init;
    FirstAtBound(init, idOf, id);
  }

  lemma {:induction false} FirstsInOrder<G>(rows: seq<JoinRow<G>>, idOf: G -> int)
    ensures ByFirstAppearance(rows, idOf, Firsts(rows, idOf))
  {
    if rows != [] {
      var init, row := rows[..|rows| - 1], rows[|rows| - 1];
      FirstsInOrder(init, idOf);
      FirstsAreGroups(init, idOf);
      assert rows == init + [row];
      var before, firsts := Firsts(init, idOf), Firsts(rows, idOf);
      forall i, j | 0 <= i < j < |firsts|
        ensures FirstAt(rows, idOf, idOf(firsts[i])) < FirstAt(rows, idOf, idOf(firsts[j]))
      {
        assert before[i] in before;
        FirstAtStays(init, row, idOf, idOf(before[i]));
        if j < |before| {
          assert before[j] in before;
          FirstAtStays(init, row, idOf, idOf(before[j]));
        }
      }
    }
  }

  lemma {:induction false} FilterKeepsOrder<G>(rows: seq<JoinRow<G>>, idOf: G -> int, groups: seq<G>, p: G -> bool)
    requires ByFirstAppearance(rows, idOf, groups)
    ensures ByFirstAppearance(rows, idOf, Filter(groups, p))
  {
    if groups != [] {
      var n := |groups| - 1;
      FilterKeepsOrder(rows, idOf, groups[..n], p);
      var kept, all := Filter(groups[..n], p), Filter(groups, p);
      forall i, j | 0 <= i < j < |all|
        ensures FirstAt(rows, idOf, idOf(all[i])) < FirstAt(rows, idOf, idOf(all[j]))
      {
        if j == |kept| {
          assert kept[i] in kept;
          FilterHas(groups[..n], p, kept[i]);
          var k :| 0 <= k < n && groups[k] == kept[i];
        }
      }
    }
  }

  /**
    What an account is loaded with: exactly the groups joined to it, each once, ordered by where the
    group first appears among all joined rows.
  */
  lemma JoinedGroupsSpec<G>(rows: seq<JoinRow<G>>, idOf: G -> int, account: int)
    ensures
      var groups := JoinedGroups(rows, idOf, account);
      && (forall id :: Joins(rows, idOf, account, id) <==> exists g :: g in groups && idOf(g) == id)
      && (forall i, j :: 0 <= i < j < |groups| ==> idOf(groups[i]) != idOf(groups[j]))
      && ByFirstAppearance(rows, idOf, groups)
  {
    var firsts := Firsts(rows, idOf);
    var p := JoinedTo(rows, idOf, account);
    FirstsInOrder(rows, idOf);
    FilterKeepsOrder(rows, idOf, firsts, p);
    var groups := JoinedGroups(rows, idOf, account);
    forall id
      ensures Joins(rows, idOf, account, id) <==> exists g :: g in groups && idOf(g) == id
    {
      if Joins(rows, idOf, account, id) {
        assert HasGroup(rows, idOf, id);
        FirstsCover(rows, idOf, id);
        var g :| g in firsts && idOf(g) == id;
        FilterHas(firsts, p, g);
      }
      if exists g :: g in groups && idOf(g) == id {
        var g :| g in groups && idOf(g) == id;
        FilterHas(firsts, p, g);
      }
    }
  }
}
