/** lib/pool_cluster.js: nodes found by pattern, error counts that take nodes out of service, and the
    retries of `PoolNamespace.getConnection`. */
module PoolClusters {
  import opened Lists
  import opened Maybes

  /** The name of a node. */
  datatype Id = Id(name: string)

  /** A search pattern. */
  datatype Pattern = Pattern(text: string)

  predicate IsLineEnd(c: char) {
    c == '\n' || c == '\r' || c == '\U{2028}' || c == '\U{2029}'
  }

  /** The regular expression of a string pattern: everything stands for itself, except that a star stands
      for any characters of one line. */
  predicate Matches(pattern: string, id: string)
    decreases |pattern| + |id|
  {
    if pattern == "" then id == ""
    else if pattern[0] == '*' then
      Matches(pattern[1..], id) || (id != "" && !IsLineEnd(id[0]) && Matches(pattern, id[1..]))
    else id != "" && id[0] == pattern[0] && Matches(pattern[1..], id[1..])
  }

  lemma {:induction false} LiteralMatch(pattern: string, id: string)
    requires '*' !in pattern
    ensures Matches(pattern, id) <==> id == pattern
  {
    if pattern != "" {
      assert pattern[0] in pattern;
      if id != "" {
        LiteralMatch(pattern[1..], id[1..]);
        assert pattern == [pattern[0]] + pattern[1..] && id == [id[0]] + id[1..];
      }
    }
  }

  /** What a star stands for: text without a line feed, a carriage return, or a line or paragraph separator. */
  predicate OneLine(s: string) {
    '\n' !in s && '\r' !in s && '\U{2028}' !in s && '\U{2029}' !in s
  }

  function Stars(pattern: string): nat {
    if pattern == "" then 0 else Stars(pattern[1..]) + if pattern[0] == '*' then 1 else 0
  }

  /** The pattern with the fillers in place of its stars. */
  function Replaced(pattern: string, fillers: seq<string>): string
    requires |fillers| == Stars(pattern)
  {
    if pattern == "" then ""
    else if pattern[0] == '*' then fillers[0] + Replaced(pattern[1..], fillers[1..])
    else [pattern[0]] + Replaced(pattern[1..], fillers)
  }

  ghost predicate Fills(fillers: seq<string>, pattern: string, id: string) {
    |fillers| == Stars(pattern) && (forall f :: f in fillers ==> OneLine(f)) && id == Replaced(pattern, fillers)
  }

  lemma {:induction false} SomeFillers(pattern: string, id: string) returns (fillers: seq<string>)
    requires Matches(pattern, id)
    ensures Fills(fillers, pattern, id)
    decreases |pattern| + |id|
  {
    if pattern == "" {
      fillers := [];
    } else if pattern[0] != '*' {
      fillers := SomeFillers(pattern[1..], id[1..]);
      assert id == [id[0]] + id[1..];
    } else if Matches(pattern[1..], id) {
      var rest := SomeFillers(pattern[1..], id);
      fillers := [""] + rest;
      assert fillers[1..] == rest && "" + id == id;
    } else {
      var longer := SomeFillers(pattern, id[1..]);
      fillers := [[id[0]] + longer[0]] + longer[1..];
      LongerFiller(pattern, longer, id[0]);
      assert id == [id[0]] + id[1..];
    }
  }

  lemma LongerFiller(pattern: string, fillers: seq<string>, c: char)
    requires pattern != "" && pattern[0] == '*' && |fillers| == Stars(pattern) && !IsLineEnd(c)
    requires forall f :: f in fillers ==> OneLine(f)
    ensures var longer := [[c] + fillers[0]] + fillers[1..];
            Fills(longer, pattern, [c] + Replaced(pattern, fillers))
  {
    var longer := [[c] + fillers[0]] + fillers[1..];
    assert longer[1..] == fillers[1..];
    var rest := Replaced(pattern[1..], fillers[1..]);
    assert ([c] + fillers[0]) + rest == [c] + (fillers[0] + rest);
    assert OneLine(fillers[0]);
    forall f | f in longer ensures OneLine(f) {
      if f != longer[0] {
        assert f in fillers;
      }
    }
  }

  lemma {:induction false} FillersMatch(pattern: string, fillers: seq<string>)
    requires |fillers| == Stars(pattern) && forall f :: f in fillers ==> OneLine(f)
    ensures Matches(pattern, Replaced(pattern, fillers))
    decreases |pattern|, if fillers == [] then 0 else |fillers[0]|
  {
    if pattern == "" {
    } else if pattern[0] != '*' {
      FillersMatch(pattern[1..], fillers);
      assert Replaced(pattern, fillers)[1..] == Replaced(pattern[1..], fillers);
    } else if fillers[0] == "" {
      FillersMatch(pattern[1..], fillers[1..]);
      assert "" + Replaced(pattern[1..], fillers[1..]) == Replaced(pattern[1..], fillers[1..]);
    } else {
      var shorter := [fillers[0][1..]] + fillers[1..];
      assert fillers[0] in fillers && fillers[0][0] in fillers[0] && shorter[1..] == fillers[1..];
      FillersMatch(pattern, shorter);
      assert Replaced(pattern, fillers)[1..] == Replaced(pattern, shorter);
    }
  }

  /** A pattern finds exactly the ids that are the pattern with one line of text in place of each star. */
  lemma StarMeaning(pattern: string, id: string)
    ensures Matches(pattern, id) <==> exists fillers :: Fills(fillers, pattern, id)
  {
    hide Matches, Replaced, OneLine, Stars;
    if Matches(pattern, id) {
      var fillers := SomeFillers(pattern, id);
    }
    if exists fillers :: Fills(fillers, pattern, id) {
      var fillers :| Fills(fillers, pattern, id);
      FillersMatch(pattern, fillers);
    }
  }

  /** The default pattern finds every id of one line. */
  lemma StarFindsAll(id: string)
    ensures Matches("*", id) <==> OneLine(id)
  {
    PrefixStar("", id);
    assert "" + "*" == "*" && id[0..] == id;
  }

  /** A star at the end finds exactly the ids that begin with what is before it. */
  lemma {:induction false} PrefixStar(start: string, id: string)
    requires '*' !in start
    ensures Matches(start + "*", id) <==> start <= id && OneLine(id[|start|..])
  {
    if start == "" {
      assert start + "*" == "*";
      OnlyStar(id);
    } else {
      var pattern := start + "*";
      assert pattern[0] == start[0] && start[0] in start && pattern[1..] == start[1..] + "*";
      if id != "" {
        PrefixStar(start[1..], id[1..]);
        assert start <= id <==> start[0] == id[0] && start[1..] <= id[1..];
        assert start <= id ==> id[1..][|start[1..]|..] == id[|start|..];
      }
    }
  }

  lemma {:induction false} OnlyStar(id: string)
    ensures Matches("*", id) <==> OneLine(id[0..])
  {
    assert "*"[1..] == "";
    if id != "" {
      OnlyStar(id[1..]);
      assert id == [id[0]] + id[1..] && id[1..][0..] == id[1..] && id[0..] == id;
    }
  }

  function Matching(ids: seq<Id>, pattern: Pattern): (found: seq<Id>)
    ensures forall id :: id in found <==> id in ids && Matches(pattern.text, id.name)
  {
    if ids == [] then []
    else
      var last := ids[|ids| - 1];
      Matching(ids[..|ids| - 1], pattern) + if Matches(pattern.text, last.name) then [last] else []
  }

  // ---------------------------------------------------------------- the cluster as a value

  datatype NodeState = NodeState(pool: nat, errorCount: nat, offlineUntil: nat)

  datatype ClusterState = ClusterState(nodes: map<Id, NodeState>, serviceable: seq<Id>, ended: seq<nat>)

  predicate IsOnline(n: NodeState, now: nat) {
    n.offlineUntil == 0 || n.offlineUntil <= now
  }

  function Online(c: ClusterState, ids: seq<Id>, now: nat): (found: seq<Id>)
    requires forall id :: id in ids ==> id in c.nodes
    ensures forall id :: id in found <==> id in ids && IsOnline(c.nodes[id], now)
  {
    if ids == [] then []
    else
      assert ids[|ids| - 1] in ids;
      var last := ids[|ids| - 1];
      Online(c, ids[..|ids| - 1], now) + if IsOnline(c.nodes[last], now) then [last] else []
  }

  /** The ids in service are exactly the node keys, each once. */
  ghost predicate Coherent(c: ClusterState) {
    NoDuplicates(c.serviceable) && forall id :: id in c.serviceable <==> id in c.nodes
  }

  ghost function Found(c: ClusterState, pattern: Pattern, now: nat): seq<Id>
    requires Coherent(c)
  {
    Online(c, Matching(c.serviceable, pattern), now)
  }

  /** Without a timeout for restoring, nodes are never offline, and are removed at the limit. */
  ghost predicate Limited(c: ClusterState, limit: nat, restore: nat) {
    restore == 0 ==> forall id :: id in c.nodes ==> c.nodes[id].offlineUntil == 0 && c.nodes[id].errorCount < limit
  }

  function Without(ids: seq<Id>, id: Id): (rest: seq<Id>)
    ensures forall x :: x in rest <==> x in ids && x != id
  {
    if ids == [] then []
    else Without(ids[..|ids| - 1], id) + if ids[|ids| - 1] == id then [] else [ids[|ids| - 1]]
  }

  /** Without the node that has this id, if there is one; the pool given is ended. */
  function RemovedFrom(c: ClusterState, id: Id, pool: nat): ClusterState {
    if id !in c.nodes then c else ClusterState(c.nodes - {id}, Without(c.serviceable, id), c.ended + [pool])
  }

  /** The nodes with these ids are taken out, one after the other. */
  function RemoveEach(c: ClusterState, ids: seq<Id>): ClusterState {
    if ids == [] then c
    else
      var d := RemoveEach(c, ids[..|ids| - 1]);
      var id := ids[|ids| - 1];
      if id in d.nodes then RemovedFrom(d, id, d.nodes[id].pool) else d
  }

  lemma {:induction false} RemoveEachLeaves(c: ClusterState, ids: seq<Id>)
    requires Coherent(c)
    ensures Coherent(RemoveEach(c, ids))
    ensures forall id :: id in RemoveEach(c, ids).nodes <==> id in c.nodes && id !in ids
    ensures forall id :: id in RemoveEach(c, ids).nodes ==> RemoveEach(c, ids).nodes[id] == c.nodes[id]
  {
    hide Coherent, Without;
    if ids != [] {
      var init, last := ids[..|ids| - 1], ids[|ids| - 1];
      RemoveEachLeaves(c, init);
      var d := RemoveEach(c, init);
      if last in d.nodes {
        RemovedCoherent(d, last, d.nodes[last].pool);
      }
      assert forall id :: id in ids <==> id in init || id == last;
    }
  }

  /** `remove` leaves exactly the nodes that the pattern does not match, as they were. */
  lemma RemoveByPattern(c: ClusterState, pattern: Pattern)
    requires Coherent(c)
    ensures var d := RemoveEach(c, Matching(c.serviceable, pattern));
            && Coherent(d)
            && (forall id :: id in d.nodes <==> id in c.nodes && !Matches(pattern.text, id.name))
            && (forall id :: id in d.nodes ==> d.nodes[id] == c.nodes[id])
  {
    hide Matches, RemoveEach, NoDuplicates;
    RemoveEachLeaves(c, Matching(c.serviceable, pattern));
  }

  function WithNode(c: ClusterState, id: Id, n: NodeState): ClusterState {
    c.(nodes := c.nodes[id := n])
  }

  /** A failure of the node with this id. */
  function AfterError(c: ClusterState, id: Id, limit: nat, restore: nat, now: nat): ClusterState
    requires id in c.nodes
  {
    var n := c.nodes[id].(errorCount := c.nodes[id].errorCount + 1);
    if limit > n.errorCount then WithNode(c, id, n)
    else if restore > 0 then WithNode(c, id, n.(offlineUntil := now + restore))
    else RemovedFrom(c, id, n.pool)
  }

  /** A failure of a node that is no longer in the cluster, reported by one of its connections. */
  function AfterStaleError(c: ClusterState, id: Id, pool: nat, errorCount: nat, limit: nat,
                           restore: nat): ClusterState {
    if limit > errorCount + 1 || restore > 0 then c else RemovedFrom(c, id, pool)
  }

  /** A success: the count goes down from at most the limit, and the node is online. */
  function AfterSuccess(n: NodeState, limit: nat): NodeState {
    var capped := if n.errorCount > limit then limit else n.errorCount;
    n.(errorCount := if capped < 1 then 0 else capped - 1, offlineUntil := 0)
  }

  /** As many failures of a node in a row, as long as it is in the cluster. */
  function Errors(c: ClusterState, id: Id, limit: nat, restore: nat, now: nat, k: nat): ClusterState {
    if k == 0 then c
    else
      var d := Errors(c, id, limit, restore, now, k - 1);
      if id in d.nodes then AfterError(d, id, limit, restore, now) else d
  }

  /** A node serves until the limit is reached, and no longer: then it is removed and its pool ended, or
      offline for as long as the configuration says. */
  lemma {:induction false} OutAtLimit(c: ClusterState, id: Id, limit: nat, restore: nat, now: nat, k: nat)
    requires id in c.nodes && c.nodes[id].errorCount == 0 && c.nodes[id].offlineUntil == 0 && limit >= 1
    ensures var d := Errors(c, id, limit, restore, now, k); id in d.nodes <==> k < limit || restore > 0
    ensures var d := Errors(c, id, limit, restore, now, k);
            id in d.nodes ==> d.nodes[id].pool == c.nodes[id].pool && d.nodes[id].errorCount == k
    ensures var d := Errors(c, id, limit, restore, now, k);
            && (id in d.nodes ==> d.nodes[id].offlineUntil == if k < limit then 0 else now + restore)
            && (id in d.nodes ==> forall t :: IsOnline(d.nodes[id], t) <==> k < limit || now + restore <= t)
    ensures Errors(c, id, limit, restore, now, k).ended ==
            c.ended + if k < limit || restore > 0 then [] else [c.nodes[id].pool]
  {
    hide Without;
    if k > 0 {
      OutAtLimit(c, id, limit, restore, now, k - 1);
    }
  }

  /** A success takes back a failure: a node below the limit is as it was before, in service. */
  lemma SuccessUndoesError(c: ClusterState, id: Id, limit: nat, restore: nat, now: nat)
    requires id in c.nodes && c.nodes[id].errorCount < limit && c.nodes[id].offlineUntil == 0
    ensures var d := AfterError(c, id, limit, restore, now);
            id in d.nodes ==> AfterSuccess(d.nodes[id], limit) == c.nodes[id]
  {
    hide Without;
  }

  lemma RemovedCoherent(c: ClusterState, id: Id, pool: nat)
    requires Coherent(c)
    ensures Coherent(RemovedFrom(c, id, pool))
  {
    if id in c.serviceable {
      var i :| 0 <= i < |c.serviceable| && c.serviceable[i] == id;
      SpliceOut(c.serviceable, i);
      SpliceDistinct(c.serviceable, i);
    }
  }

  lemma UpdatedCoherent(c: ClusterState, id: Id, n: NodeState)
    requires Coherent(c) && id in c.nodes
    ensures Coherent(WithNode(c, id, n))
  {
  }

  lemma RemovedLimited(c: ClusterState, id: Id, pool: nat, limit: nat, restore: nat)
    requires Limited(c, limit, restore)
    ensures Limited(RemovedFrom(c, id, pool), limit, restore)
  {
  }

  lemma ErrorLimited(c: ClusterState, id: Id, limit: nat, restore: nat, now: nat)
    requires Limited(c, limit, restore) && id in c.nodes
    ensures Limited(AfterError(c, id, limit, restore, now), limit, restore)
  {
  }

  /** The failure as two updates: first the count, then the end of service. */
  lemma ErrorSteps(c: ClusterState, id: Id, limit: nat, restore: nat, now: nat)
    requires id in c.nodes
    ensures var n := c.nodes[id].(errorCount := c.nodes[id].errorCount + 1);
            var counted := WithNode(c, id, n);
            AfterError(c, id, limit, restore, now) ==
            if limit > n.errorCount then counted
            else if restore == 0 then RemovedFrom(counted, id, n.pool)
            else WithNode(counted, id, n.(offlineUntil := now + restore))
  {
    var n := c.nodes[id].(errorCount := c.nodes[id].errorCount + 1);
    assert c.nodes[id := n] - {id} == c.nodes - {id};
    assert c.nodes[id := n][id := n.(offlineUntil := now + restore)] ==
      c.nodes[id := n.(offlineUntil := now + restore)];
  }

  lemma SplicedState(c: ClusterState, i: nat)
    requires Coherent(c) && i < |c.serviceable|
    ensures Without(c.serviceable, c.serviceable[i]) == c.serviceable[..i] + c.serviceable[i + 1..]
  {
    SpliceOut(c.serviceable, i);
  }

  lemma KeysInService(c: ClusterState)
    requires Coherent(c)
    ensures forall id :: id in c.serviceable <==> id in c.nodes
  {
  }

  lemma AddedCoherent(c: ClusterState, id: Id, n: NodeState)
    requires Coherent(c) && id !in c.nodes
    ensures Coherent(c.(nodes := c.nodes[id := n], serviceable := c.serviceable + [id]))
  {
  }

  // ---------------------------------------------------------------- nodes and their cluster

  class Node {
    const id: Id
    const pool: nat
    var errorCount: nat
    var offlineUntil: nat

    constructor (id: Id, pool: nat)
      ensures this.id == id && this.pool == pool && errorCount == 0 && offlineUntil == 0
    {
      this.id, this.pool, errorCount, offlineUntil := id, pool, 0, 0;
    }
  }

  datatype Event = Offline(id: Id) | OnlineAgain(id: Id) | Removed(id: Id) | Warned

  class PoolCluster {
    const canRetry: bool
    const removeNodeErrorCount: nat
    const restoreNodeTimeout: nat
    var nodes: map<Id, Node>
    var serviceable: seq<Id>
    var findCaches: map<Pattern, seq<Id>>
    var ended: seq<nat>
    var events: seq<Event>

    ghost function NodeStates(): (states: map<Id, NodeState>)
      reads this`nodes, nodes.Values
      ensures states.Keys == nodes.Keys
      ensures forall id :: id in nodes ==>
              states[id] == NodeState(nodes[id].pool, nodes[id].errorCount, nodes[id].offlineUntil)
    {
      map id | id in nodes :: NodeState(nodes[id].pool, nodes[id].errorCount, nodes[id].offlineUntil)
    }

    ghost function State(): ClusterState
      reads this, nodes.Values
    {
      ClusterState(NodeStates(), serviceable, ended)
    }

    /** Every cached pattern is what filtering the ids in service gives now. */
    ghost predicate CachesRight()
      reads this
    {
      forall p :: p in findCaches ==> findCaches[p] == Matching(serviceable, p)
    }

    ghost predicate Shape()
      reads this, nodes.Values
    {
      Coherent(State()) && CachesRight() && removeNodeErrorCount >= 1 && forall id :: id in nodes ==> nodes[id].id == id
    }

    ghost predicate Valid()
      reads this, nodes.Values
    {
      Shape() && Limited(State(), removeNodeErrorCount, restoreNodeTimeout)
    }

    /** Zero counts as missing in the configuration. */
    constructor (canRetry: bool, removeNodeErrorCount: nat, restoreNodeTimeout: nat)
      ensures Valid() && State() == ClusterState(map[], [], []) && this.canRetry == canRetry
      ensures this.removeNodeErrorCount == (if removeNodeErrorCount == 0 then 5 else removeNodeErrorCount)
      ensures this.restoreNodeTimeout == restoreNodeTimeout
    {
      this.canRetry := canRetry;
      this.removeNodeErrorCount := if removeNodeErrorCount == 0 then 5 else removeNodeErrorCount;
      this.restoreNodeTimeout := restoreNodeTimeout;
      nodes, serviceable, findCaches, ended, events := map[], [], map[], [], [];
    }

    /** `add`; `pool` is the new pool. */
    method Add(id: Id, pool: nat)
      requires Valid()
      modifies this
      ensures Valid()
      ensures State() == if id in old(nodes) then old(State())
                         else old(State()).(nodes := old(State()).nodes[id := NodeState(pool, 0, 0)],
                                            serviceable := old(serviceable) + [id])
      ensures id in nodes && (id !in old(nodes) ==> fresh(nodes[id]))
    {
      hide Matching, Coherent, NodeStates;
      if id !in nodes {
        ghost var before := NodeStates();
        AddedCoherent(State(), id, NodeState(pool, 0, 0));
        var node := new Node(id, pool);
        nodes := nodes[id := node];
        serviceable := serviceable + [id];
        findCaches := map[];
        assert NodeStates() == before[id := NodeState(pool, 0, 0)];
      }
    }

    /** `_findNodeIds`. */
    method FindNodeIds(pattern: Pattern, includeOffline: bool, now: nat) returns (found: seq<Id>)
      requires Valid()
      modifies this`findCaches
      ensures Valid() && State() == old(State())
      ensures found == if includeOffline then Matching(serviceable, pattern) else Found(State(), pattern, now)
    {
      hide Coherent, Matching, NodeStates, Online;
      KeysInService(State());
      found := CachedIds(pattern);
      if !includeOffline {
        found := FilterOnline(found, now);
      }
    }

    method CachedIds(pattern: Pattern) returns (found: seq<Id>)
      requires CachesRight()
      modifies this`findCaches
      ensures CachesRight() && found == Matching(serviceable, pattern)
    {
      hide Matching;
      if pattern in findCaches {
        found := findCaches[pattern];
      } else {
        found := Filter(pattern);
      }
      findCaches := findCaches[pattern := found];
    }

    method Filter(pattern: Pattern) returns (found: seq<Id>)
      ensures found == Matching(serviceable, pattern)
    {
      hide Matches;
      found := [];
      for i := 0 to |serviceable|
        invariant found == Matching(serviceable[..i], pattern)
      {
        assert serviceable[..i + 1][..i] == serviceable[..i];
        if Matches(pattern.text, serviceable[i].name) {
          found := found + [serviceable[i]];
        }
      }
      assert serviceable[..|serviceable|] == serviceable;
    }

    method FilterOnline(ids: seq<Id>, now: nat) returns (found: seq<Id>)
      requires forall id :: id in ids ==> id in nodes
      ensures found == Online(State(), ids, now)
    {
      found := [];
      for i := 0 to |ids|
        invariant found == Online(State(), ids[..i], now)
      {
        assert ids[..i + 1][..i] == ids[..i];
        var node := nodes[ids[i]];
        if node.offlineUntil == 0 || node.offlineUntil <= now {
          found := found + [ids[i]];
        }
      }
      assert ids[..|ids|] == ids;
    }

    /** `_removeNode`: it looks the node up by its id, so it takes out whichever node has that id now. */
    method RemoveNode(node: Node)
      requires Shape()
      modifies this
      ensures Shape() && nodes == old(nodes) - {node.id}
      ensures State() == RemovedFrom(old(State()), node.id, node.pool)
    {
      hide Matching, NoDuplicates, Without, Coherent, NodeStates;
      var index := IndexOf(serviceable, node.id);
      RemovedCoherent(State(), node.id, node.pool);
      KeysInService(State());
      if index != -1 {
        ghost var before := NodeStates();
        assert Without(serviceable, node.id) ==
          serviceable[..index] + serviceable[index + 1..] by { SplicedState(State(), index); }
        serviceable := serviceable[..index] + serviceable[index + 1..];
        nodes := nodes - {node.id};
        findCaches := map[];
        ended := ended + [node.pool];
        assert NodeStates() == before - {node.id} by { RemovedStates(before, node.id); }
      } else {
        assert nodes == nodes - {node.id};
      }
    }

    lemma RemovedStates(before: map<Id, NodeState>, id: Id)
      requires id !in nodes && before.Keys == nodes.Keys + {id}
      requires forall x :: x in nodes ==>
               before[x] == NodeState(nodes[x].pool, nodes[x].errorCount, nodes[x].offlineUntil)
      ensures NodeStates() == before - {id}
    {
    }

    /** A node object may have left the cluster, and even its id may belong to another one by now. */
    ghost predicate Attached(node: Node)
      reads this
    {
      node.id in nodes && nodes[node.id] == node
    }

    /** New values for the fields of a node. */
    method Update(node: Node, errorCount: nat, offlineUntil: nat)
      requires Shape()
      modifies node
      ensures Shape() && node.errorCount == errorCount && node.offlineUntil == offlineUntil
      ensures State() == if !old(Attached(node)) then old(State())
                         else WithNode(old(State()), node.id, NodeState(node.pool, errorCount, offlineUntil))
    {
      hide Coherent, Matching, NodeStates;
      ghost var before := State();
      node.errorCount, node.offlineUntil := errorCount, offlineUntil;
      var n := NodeState(node.pool, errorCount, offlineUntil);
      if Attached(node) {
        UpdatedCoherent(before, node.id, n);
        assert NodeStates() == before.nodes[node.id := n];
      } else {
        assert NodeStates() == before.nodes;
      }
    }

    method IncreaseErrorCount(node: Node, now: nat)
      requires Valid()
      modifies this, node
      ensures Valid() && nodes.Values <= old(nodes.Values)
      ensures State() == if old(Attached(node))
                         then AfterError(old(State()), node.id, removeNodeErrorCount, restoreNodeTimeout, now)
                         else AfterStaleError(old(State()), node.id, node.pool, old(node.errorCount),
                                              removeNodeErrorCount, restoreNodeTimeout)
    {
      hide State, Shape, Limited, RemovedFrom, WithNode, AfterError;
      ghost var before := State();
      ghost var attached := Attached(node);
      if attached {
        AttachedState(node);
        ErrorLimited(before, node.id, removeNodeErrorCount, restoreNodeTimeout, now);
        ErrorSteps(before, node.id, removeNodeErrorCount, restoreNodeTimeout, now);
      } else {
        RemovedLimited(before, node.id, node.pool, removeNodeErrorCount, restoreNodeTimeout);
      }
      Update(node, node.errorCount + 1, node.offlineUntil);
      if removeNodeErrorCount <= node.errorCount {
        TakeOut(node, now);
      }
    }

    lemma AttachedState(node: Node)
      requires Attached(node)
      ensures node.id in State().nodes
              && State().nodes[node.id] == NodeState(node.pool, node.errorCount, node.offlineUntil)
    {
    }

    /** Offline for a while, or out of the cluster. */
    method TakeOut(node: Node, now: nat)
      requires Shape()
      modifies this, node
      ensures Shape() && nodes.Values <= old(nodes.Values)
      ensures State() == if restoreNodeTimeout == 0 then RemovedFrom(old(State()), node.id, node.pool)
                         else if !old(Attached(node)) then old(State())
                         else WithNode(old(State()), node.id,
                                       NodeState(node.pool, old(node.errorCount), now + restoreNodeTimeout))
    {
      hide State, Shape, RemovedFrom, WithNode;
      if restoreNodeTimeout > 0 {
        Update(node, node.errorCount, now + restoreNodeTimeout);
        Announce(Offline(node.id));
        return;
      }
      RemoveNode(node);
      Announce(Removed(node.id));
    }

    /** `remove`. */
    method Remove(pattern: Pattern)
      requires Valid()
      modifies this
      ensures Valid() && State() == RemoveEach(old(State()), Matching(old(serviceable), pattern))
      ensures nodes.Values <= old(nodes.Values)
    {
      hide Coherent, NodeStates, CachesRight, RemovedFrom, Matching, Limited;
      ghost var before := State();
      var found := FindNodeIds(pattern, true, 0);
      for i := 0 to |found|
        invariant Valid() && State() == RemoveEach(before, found[..i]) && nodes.Values <= old(nodes.Values)
      {
        assert found[..i + 1][..i] == found[..i];
        if found[i] in nodes {
          var node := nodes[found[i]];
          RemovedLimited(State(), node.id, node.pool, removeNodeErrorCount, restoreNodeTimeout);
          RemoveNode(node);
        }
      }
      assert found[..|found|] == found;
    }

    method Announce(e: Event)
      requires Shape()
      modifies this`events
      ensures Shape() && State() == old(State())
    {
      hide Coherent, NodeStates, Matching;
      events := events + [e];
    }

    method Warn()
      requires Valid()
      modifies this`events
      ensures Valid() && State() == old(State())
    {
      hide Coherent, NodeStates, Matching;
      events := events + [Warned];
    }

    method DecreaseErrorCount(node: Node)
      requires Valid()
      modifies this`events, node
      ensures Valid()
      ensures State() == if old(Attached(node))
                         then WithNode(old(State()), node.id,
                                       AfterSuccess(old(State()).nodes[node.id], removeNodeErrorCount))
                         else old(State())
    {
      hide Coherent, NodeStates, CachesRight;
      ghost var before := State();
      var errorCount := node.errorCount;
      if errorCount > removeNodeErrorCount {
        errorCount := removeNodeErrorCount;
      }
      if errorCount < 1 {
        errorCount := 1;
      }
      var wasOffline := node.offlineUntil != 0;
      Update(node, errorCount - 1, 0);
      if wasOffline {
        Announce(OnlineAgain(node.id));
      }
    }
  }

  /** `indexOf`. */
  method IndexOf(ids: seq<Id>, id: Id) returns (index: int)
    ensures index == -1 <==> id !in ids
    ensures index != -1 ==> 0 <= index < |ids| && ids[index] == id
  {
    for i := 0 to |ids|
      invariant id !in ids[..i]
    {
      if ids[i] == id {
        return i;
      }
    }
    index := -1;
  }

  /** Splicing out the only occurrence of an id is filtering it out. */
  lemma {:induction false} SpliceOut(ids: seq<Id>, i: nat)
    requires NoDuplicates(ids) && i < |ids|
    ensures Without(ids, ids[i]) == ids[..i] + ids[i + 1..]
  {
    var init, last := ids[..|ids| - 1], ids[|ids| - 1];
    if i == |ids| - 1 {
      WithoutAbsent(init, last);
    } else {
      SpliceOut(init, i);
      assert ids[..i] + ids[i + 1..] == init[..i] + init[i + 1..] + [last];
    }
  }

  lemma SpliceDistinct(ids: seq<Id>, i: nat)
    requires NoDuplicates(ids) && i < |ids|
    ensures NoDuplicates(ids[..i] + ids[i + 1..])
  {
  }

  lemma {:induction false} WithoutAbsent(ids: seq<Id>, id: Id)
    requires id !in ids
    ensures Without(ids, id) == ids
  {
    if ids != [] {
      var init := ids[..|ids| - 1];
      AbsentParts(ids, id);
      WithoutAbsent(init, id);
      assert ids == init + [ids[|ids| - 1]];
    }
  }

  lemma AbsentParts(ids: seq<Id>, id: Id)
    requires id !in ids && ids != []
    ensures id !in ids[..|ids| - 1] && ids[|ids| - 1] != id
  {
  }

  // ---------------------------------------------------------------- retries

  /** How many failures a node has left before it leaves service. */
  function Left(n: NodeState, limit: nat): nat {
    if limit > n.errorCount then limit - n.errorCount else 1
  }

  function Share(c: ClusterState, id: Id, pattern: Pattern, limit: nat, now: nat): nat {
    if id in c.nodes && Matches(pattern.text, id.name) && IsOnline(c.nodes[id], now) then Left(c.nodes[id], limit)
    else 0
  }

  function Shares(c: ClusterState, ids: seq<Id>, pattern: Pattern, limit: nat, now: nat): nat {
    if ids == [] then 0
    else Shares(c, ids[..|ids| - 1], pattern, limit, now) + Share(c, ids[|ids| - 1], pattern, limit, now)
  }

  /** The failures that the matching nodes in service have left together. */
  function Budget(c: ClusterState, pattern: Pattern, limit: nat, now: nat): nat {
    Shares(c, c.serviceable, pattern, limit, now)
  }

  lemma {:induction false} SharesDrop(c: ClusterState, c': ClusterState, ids: seq<Id>, id: Id, d: nat, pattern: Pattern,
                                      limit: nat, now: nat, now': nat)
    requires NoDuplicates(ids)
    requires forall x :: x in ids && x != id ==> Share(c', x, pattern, limit, now') == Share(c, x, pattern, limit, now)
    requires Share(c', id, pattern, limit, now') + d == Share(c, id, pattern, limit, now)
    ensures Shares(c', ids, pattern, limit, now') + (if id in ids then d else 0) == Shares(c, ids, pattern, limit, now)
  {
    hide Share;
    if ids != [] {
      var init, last := ids[..|ids| - 1], ids[|ids| - 1];
      assert forall x :: x in init ==> x in ids;
      assert last in ids && (id in ids <==> id in init || id == last);
      SharesDrop(c, c', init, id, d, pattern, limit, now, now');
    }
  }

  lemma {:induction false} SharesWithout(c: ClusterState, ids: seq<Id>, id: Id, pattern: Pattern, limit: nat, now: nat)
    requires id !in c.nodes
    ensures Shares(c, Without(ids, id), pattern, limit, now) == Shares(c, ids, pattern, limit, now)
  {
    if ids != [] {
      var init := ids[..|ids| - 1];
      SharesWithout(c, init, id, pattern, limit, now);
      if ids[|ids| - 1] != id {
        assert Without(ids, id)[..|Without(ids, id)| - 1] == Without(init, id);
      } else {
        assert Without(ids, id) == Without(init, id);
      }
    }
  }

  /** Every failure of a node that a pattern finds spends at least one of the failures left, as long as the
      clock stands still or nodes are not restored; in the latter case exactly one. */
  lemma ErrorSpends(c: ClusterState, id: Id, pattern: Pattern, limit: nat, restore: nat, now: nat, now': nat)
    requires Coherent(c) && Limited(c, limit, restore) && (restore > 0 ==> now' == now)
    requires id in Found(c, pattern, now)
    ensures var left := Budget(AfterError(c, id, limit, restore, now), pattern, limit, now');
            left < Budget(c, pattern, limit, now) && (restore == 0 ==> left + 1 == Budget(c, pattern, limit, now))
  {
    hide Matches, Matching, Online, NoDuplicates, Without;
    var c' := AfterError(c, id, limit, restore, now);
    forall x | x in c.serviceable && x != id
      ensures Share(c', x, pattern, limit, now') == Share(c, x, pattern, limit, now) {
    }
    var d := Share(c, id, pattern, limit, now) - Share(c', id, pattern, limit, now');
    assert d >= 1 && (restore == 0 ==> d == 1);
    SharesDrop(c, c', c.serviceable, id, d, pattern, limit, now, now');
    if id !in c'.nodes {
      SharesWithout(c', c.serviceable, id, pattern, limit, now');
    }
  }

  /** When the pattern finds no node there is nothing left to spend. */
  lemma {:induction false} NothingLeft(c: ClusterState, ids: seq<Id>, pattern: Pattern, limit: nat, now: nat)
    requires forall id :: id in ids && Matches(pattern.text, id.name) && id in c.nodes ==> !IsOnline(c.nodes[id], now)
    ensures Shares(c, ids, pattern, limit, now) == 0
  {
    hide Matches;
    if ids != [] {
      assert forall id :: id in ids[..|ids| - 1] ==> id in ids;
      assert ids[|ids| - 1] in ids;
      NothingLeft(c, ids[..|ids| - 1], pattern, limit, now);
    }
  }

  lemma BudgetSpent(c: ClusterState, pattern: Pattern, limit: nat, now: nat)
    requires Coherent(c) && Found(c, pattern, now) == []
    ensures Budget(c, pattern, limit, now) == 0
  {
    hide Matches, NoDuplicates;
    NothingLeft(c, c.serviceable, pattern, limit, now);
  }

  datatype Selector = RoundRobin | Random | Order

  /** What the callback gets. */
  datatype Answer = NoExist | NoneOnline | ConnectionError(id: Id) | Connected(id: Id)

  /** The ids in turn, from an index on. */
  function Turns(ids: seq<Id>, index: nat, n: nat): (turns: seq<Id>)
    requires ids != []
    ensures |turns| == n && forall i :: 0 <= i < n ==> turns[i] == ids[(index + i) % |ids|]
  {
    if n == 0 then [] else Turns(ids, index, n - 1) + [ids[(index + n - 1) % |ids|]]
  }

  /** Round robin is fair: as many turns as there are ids pick every one of them exactly once. */
  lemma EachInTurn(ids: seq<Id>, index: nat, k: nat)
    requires NoDuplicates(ids) && k < |ids|
    ensures exists i :: 0 <= i < |ids| && Turns(ids, index, |ids|)[i] == ids[k]
    ensures forall i, j :: 0 <= i < j < |ids| ==> Turns(ids, index, |ids|)[i] != Turns(ids, index, |ids|)[j]
  {
    hide Turns;
    var n := |ids|;
    var i := (k + n - index % n) % n;
    TurnOf(n, index, i, k);
    assert Turns(ids, index, n)[i] == ids[k];
    forall i, j | 0 <= i < j < n ensures Turns(ids, index, n)[i] != Turns(ids, index, n)[j] {
      DistinctTurns(n, index, i, j);
    }
  }

  lemma TurnOf(n: nat, index: nat, i: nat, k: nat)
    requires k < n && i == (k + n - index % n) % n
    ensures i < n && (index + i) % n == k
  {
    var r := index % n;
    SameRemainder(n, index / n, r + i, index + i);
    if k >= r {
      SameRemainder(n, 1, k - r, k + n - r);
      SmallRemainder(n, k - r);
      SmallRemainder(n, k);
    } else {
      SmallRemainder(n, k + n - r);
      SameRemainder(n, 1, k, r + i);
      SmallRemainder(n, k);
    }
  }

  lemma DistinctTurns(n: nat, index: nat, i: nat, j: nat)
    requires i < j < n
    ensures (index + i) % n != (index + j) % n
  {
    var a, b := index + i, index + j;
    assert a == a / n * n + a % n && b == b / n * n + b % n;
    if a % n == b % n {
      var d := b / n - a / n;
      assert d * n == j - i;
      assert d >= 1 ==> d * n >= n;
      assert d <= 0 ==> d * n <= 0;
    }
  }

  lemma SmallRemainder(n: nat, r: nat)
    requires r < n
    ensures r % n == r
  {
  }

  lemma SameRemainder(n: nat, q: nat, r: nat, m: nat)
    requires n > 0 && m == q * n + r
    ensures m % n == r % n
  {
    var d := m / n - q - r / n;
    assert m == m / n * n + m % n && r == r / n * n + r % n;
    assert d * n == r % n - m % n;
    assert d >= 1 ==> d * n >= n;
    assert d <= -1 ==> d * n <= -(n as int);
  }

  class PoolNamespace {
    const cluster: PoolCluster
    const pattern: Pattern
    const selector: Selector
    var index: nat

    constructor (cluster: PoolCluster, pattern: Pattern, selector: Selector)
      ensures this.cluster == cluster && this.pattern == pattern && this.selector == selector && index == 0
    {
      this.cluster, this.pattern, this.selector, index := cluster, pattern, selector, 0;
    }

    /** The selectors; `draw` is the random number, scaled to the list. */
    method Select(ids: seq<Id>, draw: nat) returns (id: Id)
      requires ids != []
      modifies this`index
      ensures id in ids
      ensures selector.RoundRobin? ==> id == ids[old(index) % |ids|] && index == old(index) + 1
      ensures !selector.RoundRobin? ==> index == old(index)
      ensures selector.Order? ==> id == ids[0]
    {
      match selector {
        case RoundRobin =>
          id := ids[index % |ids|];
          index := index + 1;
        case Random => id := ids[draw % |ids|];
        case Order => id := ids[0];
      }
    }

    method GetClusterNode(draw: nat, now: nat) returns (node: Node?)
      requires cluster.Valid()
      modifies this`index, cluster`findCaches
      ensures cluster.Valid() && cluster.State() == old(cluster.State())
      ensures node == null <==> Found(cluster.State(), pattern, now) == []
      ensures node != null ==> cluster.Attached(node) && node.id in Found(cluster.State(), pattern, now)
      ensures var found := Found(cluster.State(), pattern, now);
              && (|found| == 1 ==> node != null && node.id == found[0])
              && (|found| > 1 && selector.RoundRobin? ==> node != null && node.id == found[old(index) % |found|])
              && (|found| > 1 && selector.Order? ==> node != null && node.id == found[0])
              && index == old(index) + if |found| > 1 && selector.RoundRobin? then 1 else 0
    {
      hide Matching, Online, NoDuplicates, Matches, PoolCluster.NodeStates;
      var found := cluster.FindNodeIds(pattern, false, now);
      if found == [] {
        return null;
      }
      var nodeId := found[0];
      if |found| != 1 {
        nodeId := Select(found, draw);
      }
      node := cluster.nodes[nodeId];
    }

    /** As many picks in a row: in turn, or always the first. */
    method Picks(draws: seq<nat>, now: nat) returns (picked: seq<Id>)
      requires cluster.Valid() && |Found(cluster.State(), pattern, now)| > 1
      modifies this`index, cluster`findCaches
      ensures cluster.Valid() && cluster.State() == old(cluster.State()) && |picked| == |draws|
      ensures var found := Found(cluster.State(), pattern, now);
              && (forall i :: 0 <= i < |draws| ==> picked[i] in found)
              && (selector.RoundRobin? ==> picked == Turns(found, old(index), |draws|))
              && (selector.Order? ==> forall i :: 0 <= i < |draws| ==> picked[i] == found[0])
    {
      hide Matching, Online, NoDuplicates, Matches, PoolCluster.State, PoolCluster.Valid, Found, Coherent;
      CoherentNow();
      ghost var state := cluster.State();
      ghost var found := Found(state, pattern, now);
      picked := [];
      for i := 0 to |draws|
        invariant cluster.Valid() && cluster.State() == state && |picked| == i
        invariant forall k :: 0 <= k < i ==> picked[k] in found
        invariant selector.RoundRobin? ==> index == old(index) + i && picked == Turns(found, old(index), i)
        invariant selector.Order? ==> forall k :: 0 <= k < i ==> picked[k] == found[0]
      {
        var node := GetClusterNode(draws[i], now);
        picked := picked + [node.id];
      }
    }

    /** One attempt: no node, or the answer of the pool of the node that is picked. */
    method Attempt(k: nat, now: nat, later: nat, fails: (nat, Id) -> bool, draw: nat) returns (answer: Answer)
      requires cluster.Valid() && (cluster.restoreNodeTimeout > 0 ==> later == now)
      modifies this`index, cluster, cluster.nodes.Values
      ensures cluster.Valid() && cluster.nodes.Values <= old(cluster.nodes.Values)
      ensures answer == NoExist ==> Matching(cluster.serviceable, pattern) == []
      ensures answer == NoneOnline ==>
              Matching(cluster.serviceable, pattern) != [] && Found(cluster.State(), pattern, now) == []
      ensures answer.Connected? ==> Matches(pattern.text, answer.id.name) && !fails(k, answer.id)
      ensures answer.ConnectionError? ==> fails(k, answer.id)
      ensures answer.ConnectionError? ==>
                Budget(cluster.State(), pattern, cluster.removeNodeErrorCount, later) <
                old(Budget(cluster.State(), pattern, cluster.removeNodeErrorCount, now))
      ensures answer.ConnectionError? && cluster.restoreNodeTimeout == 0 ==>
                Budget(cluster.State(), pattern, cluster.removeNodeErrorCount, later) + 1 ==
                old(Budget(cluster.State(), pattern, cluster.removeNodeErrorCount, now))
      ensures answer in {NoExist, NoneOnline} ==>
              old(Budget(cluster.State(), pattern, cluster.removeNodeErrorCount, now)) == 0
    {
      hide Matching, Online, NoDuplicates, Matches, PoolCluster.NodeStates, AfterError, AfterSuccess, Budget, Coherent;
      var node := GetClusterNode(draw, now);
      if node == null {
        BudgetSpent(cluster.State(), pattern, cluster.removeNodeErrorCount, now);
        var known := cluster.FindNodeIds(pattern, true, now);
        return if known != [] then NoneOnline else NoExist;
      }
      FoundMatches(cluster.State(), pattern, now, node.id);
      if fails(k, node.id) {
        ErrorSpends(cluster.State(), node.id, pattern, cluster.removeNodeErrorCount, cluster.restoreNodeTimeout, now,
                    later);
        cluster.IncreaseErrorCount(node, now);
        return ConnectionError(node.id);
      }
      cluster.DecreaseErrorCount(node);
      answer := Connected(node.id);
    }

    /** `getConnection` with its retries. The k-th attempt of the chain happens at `clock(k)`, and the pool
        of the node it picks answers with an error when `fails(k, id)`. The chain ends, with one answer. */
    method GetConnection(k: nat, clock: nat -> nat, fails: (nat, Id) -> bool, draws: nat -> nat)
        returns (answer: Answer, failures: nat)
      requires cluster.Valid()
      requires cluster.restoreNodeTimeout > 0 ==> forall i, j :: clock(i) == clock(j)
      modifies this`index, cluster, cluster.nodes.Values
      ensures cluster.Valid() && cluster.nodes.Values <= old(cluster.nodes.Values)
      ensures failures <= old(Budget(cluster.State(), pattern, cluster.removeNodeErrorCount, clock(k)))
      ensures cluster.restoreNodeTimeout == 0 && cluster.canRetry && !answer.Connected? ==>
                failures == old(Budget(cluster.State(), pattern, cluster.removeNodeErrorCount, clock(k)))
      ensures answer == NoExist ==> Matching(cluster.serviceable, pattern) == []
      ensures answer == NoneOnline ==>
              Matching(cluster.serviceable, pattern) != [] && Found(cluster.State(), pattern, clock(k + failures)) == []
      ensures answer.ConnectionError? ==> failures > 0 && fails(k + failures - 1, answer.id)
      ensures answer.ConnectionError? && cluster.canRetry ==> Found(cluster.State(), pattern, clock(k + failures)) == []
      ensures answer.Connected? ==> Matches(pattern.text, answer.id.name) && !fails(k + failures, answer.id)
      decreases Budget(cluster.State(), pattern, cluster.removeNodeErrorCount, clock(k))
    {
      hide Matching, Matches, Budget, Found, Coherent, PoolCluster.State, PoolCluster.Valid;
      answer := Attempt(k, clock(k), clock(k + 1), fails, draws(k));
      failures := 0;
      if answer.ConnectionError? {
        failures := 1;
        if cluster.canRetry {
          var found := cluster.FindNodeIds(pattern, false, clock(k + 1));
          if found != [] {
            cluster.Warn();
            answer, failures := GetConnection(k + 1, clock, fails, draws);
            failures := failures + 1;
          } else {
            CoherentNow();
            BudgetSpent(cluster.State(), pattern, cluster.removeNodeErrorCount, clock(k + 1));
          }
        }
      }
    }

    lemma CoherentNow()
      requires cluster.Valid()
      ensures Coherent(cluster.State())
    {
    }
  }

  lemma FoundMatches(c: ClusterState, pattern: Pattern, now: nat, id: Id)
    requires Coherent(c) && id in Found(c, pattern, now)
    ensures id in c.nodes && Matches(pattern.text, id.name)
  {
    hide Matches, NoDuplicates;
  }

  /** An error of a connection whose node has left the cluster ought to change nothing. It does so unless
      nodes are removed at the limit, the node object reaches it, and its id is in use again. */
  lemma StaleErrorHarmless(c: ClusterState, id: Id, pool: nat, errorCount: nat, limit: nat, restore: nat)
    ensures AfterStaleError(c, id, pool, errorCount, limit, restore) == c <==>
            !(restore == 0 && errorCount + 1 >= limit && id in c.nodes)
  {
    if id in c.nodes {
      assert id !in RemovedFrom(c, id, pool).nodes;
    }
  }

  lemma RemoveOnly(a: Id, n: NodeState)
    requires '*' !in a.name
    ensures RemoveEach(ClusterState(map[a := n], [a], []), Matching([a], Pattern(a.name))) ==
            ClusterState(map[], [], [n.pool])
  {
    hide Matches;
    LiteralMatch(a.name, a.name);
    assert [a][..0] == [];
    assert Matching([], Pattern(a.name)) == [];
    assert Matching([a], Pattern(a.name)) == [a];
    var c := ClusterState(map[a := n], [a], []);
    assert RemoveEach(c, []) == c;
    assert Without([], a) == [] && Without([a], a) == [];
  }

  method AddAndRemove(a: Id) returns (cluster: PoolCluster, first: Node)
    requires '*' !in a.name
    ensures fresh(cluster) && fresh(first) && cluster.Valid() && cluster.State() == ClusterState(map[], [], [0])
            && cluster.nodes == map[]
    ensures cluster.removeNodeErrorCount == 1 && cluster.restoreNodeTimeout == 0 && first.id == a && first.pool == 0
  {
    hide Matching, RemoveEach, Coherent, PoolCluster.CachesRight;
    cluster := new PoolCluster(true, 1, 0);
    cluster.Add(a, 0);
    first := cluster.nodes[a];
    assert cluster.State().nodes == map[a := NodeState(0, 0, 0)] && cluster.serviceable == [a];
    RemoveOnly(a, NodeState(0, 0, 0));
    cluster.Remove(Pattern(a.name));
    assert cluster.nodes.Keys == cluster.State().nodes.Keys == {};
  }

  /** Such a run: the id is added, removed and added again; then the first node's connection fails. The
      second node is out of the cluster, and its pool is never ended. */
  method StaleErrorRun(a: Id) returns (cluster: PoolCluster)
    requires '*' !in a.name
    ensures fresh(cluster) && cluster.Valid()
    ensures cluster.State() == ClusterState(map[], [], [0, 0])
  {
    hide Matching, RemoveEach, Coherent, PoolCluster.CachesRight;
    var first: Node;
    cluster, first := AddAndRemove(a);
    cluster.Add(a, 1);
    cluster.IncreaseErrorCount(first, 0);
    assert cluster.State().nodes == map[];
    assert Without([a], a) == [] by { WithoutItself(a); }
  }

  lemma WithoutItself(id: Id)
    ensures Without([id], id) == []
  {
    assert [id][..0] == [];
  }
}
