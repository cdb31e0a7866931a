/** lib/pool_cluster.js as a machine of steps: any number of `getConnection` calls at once, each waiting for the
    answer of one node's pool, while nodes are added, removed, fail, succeed and come back in between. */
module ClusterRuns {
  import opened Lists
  import opened PoolClusters

  datatype Config = Config(canRetry: bool, limit: nat, restore: nat)

  /** A call that waits for the pool of a node object. The last two fields are its history: how many pools
      have failed it, and how many failures the nodes had left for it, at first and by what came back since. */
  datatype Attempt = Attempt(caller: nat, pattern: Pattern, id: Id, pool: nat, failures: nat, granted: nat)

  datatype Reply = Reply(caller: nat, pattern: Pattern, answer: Answer, failures: nat, granted: nat)

  /** A node object, in the cluster or not, numbered by its pool. */
  datatype Object = Object(id: Id, errorCount: nat)

  datatype State = State(cluster: ClusterState, caches: map<Pattern, seq<Id>>, objects: seq<Object>, clock: nat,
    pending: seq<Attempt>, replies: seq<Reply>)

  const EMPTY := State(ClusterState(map[], [], []), map[], [], 0, [], [])

  /** What can happen next. `pick` stands for the selector's choice. */
  datatype Move =
    | Get(caller: nat, pattern: Pattern, pick: nat)
    | Fails(i: nat, pick: nat)
    | Succeeds(i: nat)
    | Add(id: Id)
    | Remove(pattern: Pattern)
    | Later(ms: nat)

  /** The ids in service are the nodes' keys, and every cached search is what filtering them gives now. */
  ghost predicate Ready(s: State) {
    Coherent(s.cluster) && forall p :: p in s.caches ==> s.caches[p] == Matching(s.cluster.serviceable, p)
  }

  ghost predicate Attached(c: ClusterState, a: Attempt) {
    a.id in c.nodes && c.nodes[a.id].pool == a.pool
  }

  ghost function Search(s: State, pattern: Pattern): seq<Id> {
    if pattern in s.caches then s.caches[pattern] else Matching(s.cluster.serviceable, pattern)
  }

  /** `getConnection` up to the request to a pool, or to the callback when no node is found. */
  ghost function Begin(s: State, caller: nat, pattern: Pattern, pick: nat, failures: nat, granted: nat): State
    requires Ready(s)
  {
    var known := Search(s, pattern);
    var found := Online(s.cluster, known, s.clock);
    var t := s.(caches := s.caches[pattern := known]);
    if found == [] then
      t.(replies := s.replies
         + [Reply(caller, pattern, if known == [] then NoExist else NoneOnline, failures, granted)])
    else
      var id := found[pick % |found|];
      t.(pending := s.pending + [Attempt(caller, pattern, id, s.cluster.nodes[id].pool, failures, granted)])
  }

  /** A new value of the cluster; taking a node in or out clears the cached searches. */
  ghost function Become(s: State, c: ClusterState): State {
    s.(cluster := c, caches := if c.serviceable == s.cluster.serviceable then s.caches else map[])
  }

  ghost function ErrorCluster(cfg: Config, s: State, a: Attempt): ClusterState
    requires a.pool < |s.objects|
  {
    if Attached(s.cluster, a) then AfterError(s.cluster, a.id, cfg.limit, cfg.restore, s.clock)
    else AfterStaleError(s.cluster, a.id, a.pool, s.objects[a.pool].errorCount, cfg.limit, cfg.restore)
  }

  ghost function Error(cfg: Config, s: State, a: Attempt): State
    requires a.pool < |s.objects|
  {
    var o := s.objects[a.pool];
    Become(s, ErrorCluster(cfg, s, a)).(objects := s.objects[a.pool := o.(errorCount := o.errorCount + 1)])
  }

  ghost function SuccessCluster(cfg: Config, s: State, a: Attempt): ClusterState {
    if Attached(s.cluster, a) then WithNode(s.cluster, a.id, AfterSuccess(s.cluster.nodes[a.id], cfg.limit))
    else s.cluster
  }

  ghost function Success(cfg: Config, s: State, a: Attempt): State
    requires a.pool < |s.objects|
  {
    var o := s.objects[a.pool];
    var n := AfterSuccess(NodeState(a.pool, o.errorCount, 0), cfg.limit);
    Become(s, SuccessCluster(cfg, s, a)).(objects := s.objects[a.pool := o.(errorCount := n.errorCount)])
  }

  function RemoveAt(pending: seq<Attempt>, i: nat): seq<Attempt>
    requires i < |pending|
  {
    pending[..i] + pending[i + 1..]
  }

  ghost predicate Known(objects: seq<Object>, a: Attempt) {
    a.pool < |objects| && objects[a.pool].id == a.id && Matches(a.pattern.text, a.id.name)
  }

  ghost predicate NodesLinked(c: ClusterState, objects: seq<Object>) {
    forall id :: id in c.nodes ==>
      c.nodes[id].pool < |objects| && objects[c.nodes[id].pool] == Object(id, c.nodes[id].errorCount)
  }

  ghost predicate AllKnown(objects: seq<Object>, pending: seq<Attempt>) {
    forall a :: a in pending ==> Known(objects, a)
  }

  /** Objects and nodes agree, and every attempt waits for a known object that its pattern finds. */
  ghost predicate Linked(s: State) {
    NodesLinked(s.cluster, s.objects) && AllKnown(s.objects, s.pending)
  }

  /** The answer of a pool is an error: the call retries while a node is found, or hands the error on. */
  ghost function Retry(cfg: Config, s: State, a: Attempt, pick: nat): State
    requires Ready(s)
  {
    if cfg.canRetry && Online(s.cluster, Search(s, a.pattern), s.clock) != [] then
      Begin(s, a.caller, a.pattern, pick, a.failures + 1, a.granted)
    else
      var t := if cfg.canRetry then s.(caches := s.caches[a.pattern := Search(s, a.pattern)]) else s;
      t.(replies := s.replies + [Reply(a.caller, a.pattern, ConnectionError(a.id), a.failures + 1, a.granted)])
  }

  ghost function Failed(cfg: Config, s: State, i: nat, pick: nat): State
    requires Ready(s) && Linked(s) && i < |s.pending|
  {
    assert Known(s.objects, s.pending[i]);
    ErrorReady(cfg, s, s.pending[i]);
    Retry(cfg, Error(cfg, s, s.pending[i]).(pending := RemoveAt(s.pending, i)), s.pending[i], pick)
  }

  ghost function Succeeded(cfg: Config, s: State, i: nat): State
    requires Linked(s) && i < |s.pending|
  {
    var a := s.pending[i];
    assert Known(s.objects, a);
    Success(cfg, s, a).(pending := RemoveAt(s.pending, i),
      replies := s.replies + [Reply(a.caller, a.pattern, Connected(a.id), a.failures, a.granted)])
  }

  ghost function NodeAdded(s: State, id: Id): State {
    if id in s.cluster.nodes then s else Become(s, Added(s, id)).(objects := s.objects + [Object(id, 0)])
  }

  ghost function NodesRemoved(s: State, pattern: Pattern): State {
    var known := Search(s, pattern);
    Become(s.(caches := s.caches[pattern := known]), RemoveEach(s.cluster, known))
  }

  ghost function Act(cfg: Config, s: State, m: Move): State
    requires Ready(s) && Linked(s)
  {
    match m
    case Get(caller, pattern, pick) => Begin(s, caller, pattern, pick, 0, Remaining(cfg, s, pattern))
    case Fails(i, pick) => if i < |s.pending| then Failed(cfg, s, i, pick) else s
    case Succeeds(i) => if i < |s.pending| then Succeeded(cfg, s, i) else s
    case Add(id) => NodeAdded(s, id)
    case Remove(pattern) => NodesRemoved(s, pattern)
    case Later(ms) => s.(clock := s.clock + ms)
  }

  ghost function Added(s: State, id: Id): ClusterState {
    s.cluster.(nodes := s.cluster.nodes[id := NodeState(|s.objects|, 0, 0)],
               serviceable := s.cluster.serviceable + [id])
  }

  /** How many failures the nodes that a pattern finds have left. */
  ghost function Remaining(cfg: Config, s: State, pattern: Pattern): nat {
    Budget(s.cluster, pattern, cfg.limit, s.clock)
  }

  ghost function Gain(cfg: Config, s: State, t: State, pattern: Pattern): nat {
    var before, after := Remaining(cfg, s, pattern), Remaining(cfg, t, pattern);
    if after > before then after - before else 0
  }

  ghost function Granted(cfg: Config, s: State, t: State, a: Attempt): Attempt {
    a.(granted := a.granted + Gain(cfg, s, t, a.pattern))
  }

  ghost function GrantAll(cfg: Config, s: State, t: State, pending: seq<Attempt>): (all: seq<Attempt>)
    ensures |all| == |pending| && forall i :: 0 <= i < |all| ==> all[i] == Granted(cfg, s, t, pending[i])
  {
    if pending == [] then []
    else GrantAll(cfg, s, t, pending[..|pending| - 1]) + [Granted(cfg, s, t, pending[|pending| - 1])]
  }

  ghost function Step(cfg: Config, s: State, m: Move): State
    requires Ready(s) && Linked(s)
  {
    var t := Act(cfg, s, m);
    t.(pending := GrantAll(cfg, s, t, t.pending))
  }

  // ---------------------------------------------------------------- caches and objects

  lemma RightSearch(s: State, pattern: Pattern)
    requires Ready(s)
    ensures Search(s, pattern) == Matching(s.cluster.serviceable, pattern)
    ensures Ready(s.(caches := s.caches[pattern := Search(s, pattern)]))
    ensures Online(s.cluster, Search(s, pattern), s.clock) == Found(s.cluster, pattern, s.clock)
  {
  }

  lemma BecomeReady(s: State, c: ClusterState)
    requires Ready(s) && Coherent(c)
    ensures Ready(Become(s, c))
  {
  }

  lemma ErrorCoherent(cfg: Config, s: State, a: Attempt)
    requires Coherent(s.cluster) && a.pool < |s.objects|
    ensures Coherent(ErrorCluster(cfg, s, a))
  {
    hide Coherent, RemovedFrom, WithNode;
    var c := s.cluster;
    if Attached(c, a) {
      var n := c.nodes[a.id].(errorCount := c.nodes[a.id].errorCount + 1);
      UpdatedCoherent(c, a.id, n);
      UpdatedCoherent(c, a.id, n.(offlineUntil := s.clock + cfg.restore));
    }
    RemovedCoherent(c, a.id, a.pool);
  }

  lemma ErrorReady(cfg: Config, s: State, a: Attempt)
    requires Ready(s) && a.pool < |s.objects|
    ensures Ready(Error(cfg, s, a))
    ensures forall pending :: Ready(Error(cfg, s, a).(pending := pending))
  {
    hide Coherent, ErrorCluster;
    ErrorCoherent(cfg, s, a);
    BecomeReady(s, ErrorCluster(cfg, s, a));
  }

  lemma AddReady(s: State, id: Id)
    requires Ready(s)
    ensures Ready(NodeAdded(s, id))
  {
    hide Coherent;
    if id !in s.cluster.nodes {
      AddedCoherent(s.cluster, id, NodeState(|s.objects|, 0, 0));
      BecomeReady(s, Added(s, id));
    }
  }

  lemma RemoveReady(s: State, pattern: Pattern)
    requires Ready(s)
    ensures Ready(NodesRemoved(s, pattern))
  {
    hide Coherent;
    RightSearch(s, pattern);
    RemoveEachLeaves(s.cluster, Search(s, pattern));
    BecomeReady(s.(caches := s.caches[pattern := Search(s, pattern)]), RemoveEach(s.cluster, Search(s, pattern)));
  }

  lemma SuccessReady(cfg: Config, s: State, a: Attempt)
    requires Ready(s) && a.pool < |s.objects|
    ensures Ready(Success(cfg, s, a))
  {
    hide Coherent;
    if Attached(s.cluster, a) {
      UpdatedCoherent(s.cluster, a.id, AfterSuccess(s.cluster.nodes[a.id], cfg.limit));
    }
    BecomeReady(s, SuccessCluster(cfg, s, a));
  }

  lemma BeginReady(s: State, caller: nat, pattern: Pattern, pick: nat, failures: nat, granted: nat)
    requires Ready(s)
    ensures Ready(Begin(s, caller, pattern, pick, failures, granted))
  {
    hide Coherent, Online;
    RightSearch(s, pattern);
  }

  lemma FailedReady(cfg: Config, s: State, i: nat, pick: nat)
    requires Ready(s) && Linked(s) && i < |s.pending|
    ensures Ready(Failed(cfg, s, i, pick))
  {
    hide Coherent, Online, Error;
    var a := s.pending[i];
    assert Known(s.objects, a);
    ErrorReady(cfg, s, a);
    var t := Error(cfg, s, a).(pending := RemoveAt(s.pending, i));
    RightSearch(t, a.pattern);
    BeginReady(t, a.caller, a.pattern, pick, a.failures + 1, a.granted);
  }

  /** Every step keeps the caches right. */
  lemma StepReady(cfg: Config, s: State, m: Move)
    requires Ready(s) && Linked(s)
    ensures Ready(Step(cfg, s, m))
  {
    hide Coherent, Online, Failed, Succeeded, Success, NodeAdded, NodesRemoved, Begin;
    match m
    case Get(caller, pattern, pick) => BeginReady(s, caller, pattern, pick, 0, Remaining(cfg, s, pattern));
    case Fails(i, pick) => if i < |s.pending| { FailedReady(cfg, s, i, pick); }
    case Succeeds(i) => if i < |s.pending| { SucceededReady(cfg, s, i); }
    case Add(id) => AddReady(s, id);
    case Remove(pattern) => RemoveReady(s, pattern);
    case Later(ms) =>
  }

  lemma SucceededReady(cfg: Config, s: State, i: nat)
    requires Ready(s) && Linked(s) && i < |s.pending|
    ensures Ready(Succeeded(cfg, s, i))
  {
    hide Coherent;
    assert Known(s.objects, s.pending[i]);
    SuccessReady(cfg, s, s.pending[i]);
  }

  lemma ErrorLinked(cfg: Config, s: State, a: Attempt)
    requires NodesLinked(s.cluster, s.objects) && Known(s.objects, a)
    ensures NodesLinked(Error(cfg, s, a).cluster, Error(cfg, s, a).objects)
  {
    hide Matches, Without;
    forall id | id in s.cluster.nodes && s.cluster.nodes[id].pool == a.pool ensures id == a.id {
    }
  }

  lemma SuccessLinked(cfg: Config, s: State, a: Attempt)
    requires NodesLinked(s.cluster, s.objects) && Known(s.objects, a)
    ensures NodesLinked(Success(cfg, s, a).cluster, Success(cfg, s, a).objects)
  {
    hide Matches;
    forall id | id in s.cluster.nodes && s.cluster.nodes[id].pool == a.pool ensures id == a.id {
    }
  }

  /** No object is ever forgotten or renamed. */
  ghost predicate Grown(before: seq<Object>, after: seq<Object>) {
    |before| <= |after| && forall k :: 0 <= k < |before| ==> after[k].id == before[k].id
  }

  lemma KnownGrown(before: seq<Object>, after: seq<Object>, pending: seq<Attempt>)
    requires AllKnown(before, pending) && Grown(before, after)
    ensures AllKnown(after, pending)
  {
    hide Matches;
  }

  lemma PendingKnown(objects: seq<Object>, pending: seq<Attempt>, i: nat)
    requires AllKnown(objects, pending) && i < |pending|
    ensures Known(objects, pending[i])
    ensures pending[i].pool < |objects|
  {
    hide Matches;
  }

  lemma KnownRemoved(objects: seq<Object>, pending: seq<Attempt>, i: nat)
    requires AllKnown(objects, pending) && i < |pending|
    ensures AllKnown(objects, RemoveAt(pending, i))
  {
    hide Known;
  }

  lemma BeginLinked(s: State, caller: nat, pattern: Pattern, pick: nat, failures: nat, granted: nat)
    requires Ready(s) && Linked(s)
    ensures Linked(Begin(s, caller, pattern, pick, failures, granted))
  {
    hide Coherent, Online, Matches, Matching;
    RightSearch(s, pattern);
    KeysInService(s.cluster);
    var found := Online(s.cluster, Search(s, pattern), s.clock);
    if found != [] {
      var id := found[pick % |found|];
      assert id in found;
      FoundMatches(s.cluster, pattern, s.clock, id);
    }
  }

  lemma FailedLinked(cfg: Config, s: State, i: nat, pick: nat)
    requires Ready(s) && Linked(s) && i < |s.pending|
    ensures Linked(Failed(cfg, s, i, pick))
  {
    hide Coherent, Online, ErrorCluster, Begin, Known, Ready, AllKnown, NodesLinked;
    var a := s.pending[i];
    PendingKnown(s.objects, s.pending, i);
    ErrorReady(cfg, s, a);
    ErrorLinked(cfg, s, a);
    var t := Error(cfg, s, a).(pending := RemoveAt(s.pending, i));
    KnownGrown(s.objects, t.objects, s.pending);
    KnownRemoved(t.objects, s.pending, i);
    BeginLinked(t, a.caller, a.pattern, pick, a.failures + 1, a.granted);
  }

  lemma SucceededLinked(cfg: Config, s: State, i: nat)
    requires Ready(s) && Linked(s) && i < |s.pending|
    ensures Linked(Succeeded(cfg, s, i))
  {
    hide Coherent, SuccessCluster, Matches, Ready, AllKnown, NodesLinked;
    var a := s.pending[i];
    PendingKnown(s.objects, s.pending, i);
    SuccessLinked(cfg, s, a);
    KnownGrown(s.objects, Success(cfg, s, a).objects, s.pending);
    KnownRemoved(Success(cfg, s, a).objects, s.pending, i);
  }

  lemma AddLinked(s: State, id: Id)
    requires Linked(s)
    ensures Linked(NodeAdded(s, id))
  {
    hide Matches;
    KnownGrown(s.objects, NodeAdded(s, id).objects, s.pending);
  }

  lemma RemoveLinked(s: State, pattern: Pattern)
    requires Ready(s) && Linked(s)
    ensures Linked(NodesRemoved(s, pattern))
  {
    hide Coherent, Matches, RemoveEach;
    RemoveEachLeaves(s.cluster, Search(s, pattern));
  }

  lemma GrantLinked(cfg: Config, s: State, t: State)
    requires Linked(t)
    ensures Linked(t.(pending := GrantAll(cfg, s, t, t.pending)))
  {
    hide Gain, Matches;
    var all := GrantAll(cfg, s, t, t.pending);
    forall a | a in all ensures Known(t.objects, a) {
      var i :| 0 <= i < |all| && all[i] == a;
      assert Known(t.objects, t.pending[i]);
    }
  }

  lemma StepLinked(cfg: Config, s: State, m: Move)
    requires Ready(s) && Linked(s)
    ensures Linked(Step(cfg, s, m))
  {
    hide Ready, Linked, Failed, Succeeded, NodeAdded, NodesRemoved, Begin;
    match m {
      case Get(caller, pattern, pick) => BeginLinked(s, caller, pattern, pick, 0, Remaining(cfg, s, pattern));
      case Fails(i, pick) => if i < |s.pending| { FailedLinked(cfg, s, i, pick); }
      case Succeeds(i) => if i < |s.pending| { SucceededLinked(cfg, s, i); }
      case Add(id) => AddLinked(s, id);
      case Remove(pattern) => RemoveLinked(s, pattern);
      case Later(ms) => LaterLinked(s, ms);
    }
    GrantLinked(cfg, s, Act(cfg, s, m));
  }

  lemma LaterLinked(s: State, ms: nat)
    requires Linked(s)
    ensures Linked(s.(clock := s.clock + ms))
  {
    hide Matches;
  }

  // ---------------------------------------------------------------- every call is answered at most once

  function Callers(pending: seq<Attempt>): seq<nat> {
    if pending == [] then [] else Callers(pending[..|pending| - 1]) + [pending[|pending| - 1].caller]
  }

  function Answered(replies: seq<Reply>): seq<nat> {
    if replies == [] then [] else Answered(replies[..|replies| - 1]) + [replies[|replies| - 1].caller]
  }

  /** Where the callbacks are: waiting for a pool, or called. */
  ghost function Everyone(s: State): multiset<nat> {
    multiset(Callers(s.pending)) + multiset(Answered(s.replies))
  }

  ghost function Asked(m: Move): multiset<nat> {
    if m.Get? then multiset{m.caller} else multiset{}
  }

  lemma AnsweredSnoc(replies: seq<Reply>, r: Reply)
    ensures Answered(replies + [r]) == Answered(replies) + [r.caller]
  {
    assert (replies + [r])[..|replies|] == replies;
  }

  lemma CallersSnoc(pending: seq<Attempt>, a: Attempt)
    ensures Callers(pending + [a]) == Callers(pending) + [a.caller]
  {
    assert (pending + [a])[..|pending|] == pending;
  }

  lemma {:induction false} CallersConcat(a: seq<Attempt>, b: seq<Attempt>)
    ensures Callers(a + b) == Callers(a) + Callers(b)
  {
    if b == [] {
      assert a + b == a;
    } else {
      CallersConcat(a, b[..|b| - 1]);
      assert a + b == a + b[..|b| - 1] + [b[|b| - 1]];
      CallersSnoc(a + b[..|b| - 1], b[|b| - 1]);
    }
  }

  lemma CallersRemoved(pending: seq<Attempt>, i: nat)
    requires i < |pending|
    ensures multiset(Callers(pending)) == multiset(Callers(RemoveAt(pending, i))) + multiset{pending[i].caller}
  {
    hide Callers;
    CallersSnoc(pending[..i], pending[i]);
    CallersConcat(pending[..i] + [pending[i]], pending[i + 1..]);
    CallersConcat(pending[..i], pending[i + 1..]);
    assert pending == pending[..i] + [pending[i]] + pending[i + 1..];
  }

  lemma {:induction false} GrantCallers(cfg: Config, s: State, t: State, pending: seq<Attempt>)
    ensures Callers(GrantAll(cfg, s, t, pending)) == Callers(pending)
  {
    hide Gain;
    if pending != [] {
      GrantCallers(cfg, s, t, pending[..|pending| - 1]);
      CallersSnoc(GrantAll(cfg, s, t, pending[..|pending| - 1]), Granted(cfg, s, t, pending[|pending| - 1]));
    }
  }

  lemma BeginCallers(s: State, caller: nat, pattern: Pattern, pick: nat, failures: nat, granted: nat)
    requires Ready(s)
    ensures Everyone(Begin(s, caller, pattern, pick, failures, granted)) == Everyone(s) + multiset{caller}
  {
    hide Coherent, Online, Callers, Answered;
    var t := Begin(s, caller, pattern, pick, failures, granted);
    if t.pending == s.pending {
      AnsweredSnoc(s.replies, t.replies[|t.replies| - 1]);
    } else {
      CallersSnoc(s.pending, t.pending[|t.pending| - 1]);
    }
  }

  lemma FailedCallers(cfg: Config, s: State, i: nat, pick: nat)
    requires Ready(s) && Linked(s) && i < |s.pending|
    ensures Everyone(Failed(cfg, s, i, pick)) == Everyone(s)
  {
    hide Online, ErrorCluster, Begin, Ready, Callers, Answered;
    var a := s.pending[i];
    assert Known(s.objects, a);
    ErrorReady(cfg, s, a);
    var t := Error(cfg, s, a).(pending := RemoveAt(s.pending, i));
    CallersRemoved(s.pending, i);
    BeginCallers(t, a.caller, a.pattern, pick, a.failures + 1, a.granted);
    AnsweredSnoc(s.replies, Reply(a.caller, a.pattern, ConnectionError(a.id), a.failures + 1, a.granted));
  }

  lemma SucceededCallers(cfg: Config, s: State, i: nat)
    requires Linked(s) && i < |s.pending|
    ensures Everyone(Succeeded(cfg, s, i)) == Everyone(s)
  {
    hide SuccessCluster, Callers, Answered;
    var a := s.pending[i];
    assert Known(s.objects, a);
    CallersRemoved(s.pending, i);
    AnsweredSnoc(s.replies, Reply(a.caller, a.pattern, Connected(a.id), a.failures, a.granted));
  }

  /** A step neither loses nor repeats a callback. */
  lemma StepCallers(cfg: Config, s: State, m: Move)
    requires Ready(s) && Linked(s)
    ensures Everyone(Step(cfg, s, m)) == Everyone(s) + Asked(m)
  {
    hide Ready, Linked, Act, Callers, Answered, Asked;
    ActCallers(cfg, s, m);
    GrantCallers(cfg, s, Act(cfg, s, m), Act(cfg, s, m).pending);
  }

  lemma ActCallers(cfg: Config, s: State, m: Move)
    requires Ready(s) && Linked(s)
    ensures Everyone(Act(cfg, s, m)) == Everyone(s) + Asked(m)
  {
    hide Ready, Linked, Failed, Succeeded, Begin, Everyone, Remaining;
    match m {
      case Get(caller, pattern, pick) => BeginCallers(s, caller, pattern, pick, 0, Remaining(cfg, s, pattern));
      case Fails(i, pick) => if i < |s.pending| { FailedCallers(cfg, s, i, pick); }
      case Succeeds(i) => if i < |s.pending| { SucceededCallers(cfg, s, i); }
      case _ => SameCallers(s, Act(cfg, s, m));
    }
  }

  lemma SameCallers(s: State, t: State)
    requires t.pending == s.pending && t.replies == s.replies
    ensures Everyone(t) == Everyone(s)
  {
  }

  // ---------------------------------------------------------------- failures are paid for

  /** Two states of a cluster whose only difference is the node with this id. */
  ghost predicate OnlyAt(c: ClusterState, d: ClusterState, id: Id) {
    && Coherent(c) && Coherent(d)
    && (forall x :: x != id ==> (x in c.nodes <==> x in d.nodes))
    && (forall x :: x != id && x in c.nodes ==> d.nodes[x] == c.nodes[x])
    && d.serviceable == (if id in c.nodes && id !in d.nodes then Without(c.serviceable, id)
                         else if id !in c.nodes && id in d.nodes then c.serviceable + [id]
                         else c.serviceable)
  }

  /** Then the difference of the budgets is that of the shares of this id. */
  lemma BudgetAt(c: ClusterState, d: ClusterState, id: Id, pattern: Pattern, limit: nat, now: nat)
    requires OnlyAt(c, d, id)
    ensures Budget(d, pattern, limit, now) + Share(c, id, pattern, limit, now) ==
            Budget(c, pattern, limit, now) + Share(d, id, pattern, limit, now)
  {
    hide Matches, NoDuplicates, Without;
    var before, after := Share(c, id, pattern, limit, now), Share(d, id, pattern, limit, now);
    assert NoDuplicates(c.serviceable) && NoDuplicates(d.serviceable);
    if after <= before {
      SharesDrop(c, d, c.serviceable, id, before - after, pattern, limit, now, now);
    } else {
      SharesDrop(d, c, c.serviceable, id, after - before, pattern, limit, now, now);
    }
    if id !in d.nodes {
      SharesWithout(d, c.serviceable, id, pattern, limit, now);
      WithoutSame(c.serviceable, id, id in c.nodes, d.serviceable);
    } else if id !in c.nodes {
      assert (c.serviceable + [id])[..|c.serviceable|] == c.serviceable;
    }
  }

  lemma WithoutSame(ids: seq<Id>, id: Id, present: bool, rest: seq<Id>)
    requires rest == if present then Without(ids, id) else ids
    requires !present ==> id !in ids
    ensures rest == Without(ids, id)
  {
    if !present {
      WithoutAbsent(ids, id);
    }
  }

  /** The object that the attempt waits for is still a node that a search would find. */
  ghost predicate Serves(s: State, a: Attempt) {
    Attached(s.cluster, a) && IsOnline(s.cluster.nodes[a.id], s.clock)
  }

  /** The failures so far, the one that may come and those that the nodes have left were all granted. The one
      that may come is among those the nodes have left while the object serves. */
  ghost predicate Covered(cfg: Config, s: State, a: Attempt) {
    a.failures + 1 + Remaining(cfg, s, a.pattern) <= a.granted + if Serves(s, a) then 1 else 0
  }

  /** Taking the attempt's object out of service costs at least one of the failures left. */
  ghost predicate Steady(cfg: Config, s: State, t: State, a: Attempt) {
    Serves(s, a) && !Serves(t, a) ==> Remaining(cfg, t, a.pattern) < Remaining(cfg, s, a.pattern)
  }

  lemma SteadyCovered(cfg: Config, s: State, t: State, a: Attempt)
    requires Covered(cfg, s, a) && Steady(cfg, s, t, a)
    ensures Covered(cfg, t, Granted(cfg, s, t, a))
  {
    hide Budget;
  }

  lemma ErrorOnlyAt(cfg: Config, s: State, a: Attempt)
    requires Ready(s) && a.pool < |s.objects|
    ensures OnlyAt(s.cluster, ErrorCluster(cfg, s, a), a.id)
  {
    hide Coherent, Without;
    ErrorCoherent(cfg, s, a);
  }

  lemma ErrorShares(cfg: Config, s: State, a: Attempt, pattern: Pattern)
    requires a.pool < |s.objects|
    ensures var t := Error(cfg, s, a);
            var before, after := Share(s.cluster, a.id, pattern, cfg.limit, s.clock),
              Share(t.cluster, a.id, pattern, cfg.limit, s.clock);
            && after <= before
            && (Serves(s, a) && Matches(pattern.text, a.id.name) ==> after < before)
            && (a.id in s.cluster.nodes && IsOnline(s.cluster.nodes[a.id], s.clock) ==>
                  Matches(pattern.text, a.id.name) ==> before > 0)
            && (a.id in t.cluster.nodes ==>
                  && a.id in s.cluster.nodes && t.cluster.nodes[a.id].pool == s.cluster.nodes[a.id].pool
                  && (!IsOnline(t.cluster.nodes[a.id], s.clock) ==> after == 0))
            && (a.id !in t.cluster.nodes ==> after == 0)
  {
    hide Matches, Without;
  }

  /** An error never adds to what the nodes have left, and takes from it when its object serves. */
  lemma ErrorBudget(cfg: Config, s: State, a: Attempt, pattern: Pattern)
    requires Ready(s) && a.pool < |s.objects|
    ensures Remaining(cfg, Error(cfg, s, a), pattern) <= Remaining(cfg, s, pattern)
    ensures Serves(s, a) && Matches(pattern.text, a.id.name) ==>
              Remaining(cfg, Error(cfg, s, a), pattern) < Remaining(cfg, s, pattern)
  {
    hide Matches, Budget, Share, OnlyAt, ErrorCluster;
    ErrorOnlyAt(cfg, s, a);
    ErrorShares(cfg, s, a, pattern);
    BudgetAt(s.cluster, ErrorCluster(cfg, s, a), a.id, pattern, cfg.limit, s.clock);
  }

  lemma ErrorSteady(cfg: Config, s: State, a: Attempt, b: Attempt)
    requires Ready(s) && Known(s.objects, a) && Matches(b.pattern.text, b.id.name)
    ensures Steady(cfg, s, Error(cfg, s, a), b)
  {
    hide Matches, Budget, Share, ErrorCluster, Coherent;
    ErrorOnlyAt(cfg, s, a);
    if b.id == a.id {
      ErrorShares(cfg, s, a, b.pattern);
      BudgetAt(s.cluster, ErrorCluster(cfg, s, a), a.id, b.pattern, cfg.limit, s.clock);
    }
  }

  lemma SuccessSteady(cfg: Config, s: State, a: Attempt, b: Attempt)
    requires a.pool < |s.objects|
    ensures Steady(cfg, s, Success(cfg, s, a), b)
  {
  }

  /** What is left without the nodes of `ids`. */
  lemma {:induction false} RemoveBudget(cfg: Config, c: ClusterState, ids: seq<Id>, pattern: Pattern, now: nat)
    requires Coherent(c)
    ensures var d := RemoveEach(c, ids);
            && Budget(d, pattern, cfg.limit, now) <= Budget(c, pattern, cfg.limit, now)
            && forall id :: id in ids && id in c.nodes ==>
                 Budget(d, pattern, cfg.limit, now) + Share(c, id, pattern, cfg.limit, now) <=
                   Budget(c, pattern, cfg.limit, now)
  {
    hide Matches, Budget, Coherent, Without, Share;
    if ids != [] {
      var init, last := ids[..|ids| - 1], ids[|ids| - 1];
      RemoveBudget(cfg, c, init, pattern, now);
      RemoveEachLeaves(c, init);
      var d := RemoveEach(c, init);
      if last in d.nodes {
        RemovedBudget(cfg, d, last, d.nodes[last].pool, pattern, now);
        SameShare(cfg, c, d, last, pattern, now);
      }
      assert forall id :: id in ids <==> id in init || id == last;
    }
  }

  lemma SameShare(cfg: Config, c: ClusterState, d: ClusterState, id: Id, pattern: Pattern, now: nat)
    requires id in c.nodes && id in d.nodes && c.nodes[id] == d.nodes[id]
    ensures Share(d, id, pattern, cfg.limit, now) == Share(c, id, pattern, cfg.limit, now)
  {
  }

  lemma RemovedBudget(cfg: Config, c: ClusterState, id: Id, pool: nat, pattern: Pattern, now: nat)
    requires Coherent(c) && id in c.nodes
    ensures Budget(RemovedFrom(c, id, pool), pattern, cfg.limit, now) + Share(c, id, pattern, cfg.limit, now) ==
            Budget(c, pattern, cfg.limit, now)
  {
    hide Matches, Budget, Coherent, Without;
    RemovedCoherent(c, id, pool);
    BudgetAt(c, RemovedFrom(c, id, pool), id, pattern, cfg.limit, now);
  }

  lemma RemoveSteady(cfg: Config, s: State, pattern: Pattern, b: Attempt)
    requires Ready(s) && Matches(b.pattern.text, b.id.name)
    ensures Steady(cfg, s, NodesRemoved(s, pattern), b)
    ensures Remaining(cfg, NodesRemoved(s, pattern), b.pattern) <= Remaining(cfg, s, b.pattern)
  {
    hide Matches, Budget, Coherent, RemoveEach;
    RemoveBudget(cfg, s.cluster, Search(s, pattern), b.pattern, s.clock);
    RemoveEachLeaves(s.cluster, Search(s, pattern));
  }

  ghost predicate AllCovered(cfg: Config, s: State) {
    forall a :: a in s.pending ==> Covered(cfg, s, a)
  }

  /** No call was failed more often than the nodes had failures left for it. */
  ghost predicate AllPaid(s: State) {
    forall r :: r in s.replies ==> r.failures <= r.granted
  }

  /** Every attempt of `t` is an old one that keeps what it counts on, or a new one that is covered. */
  ghost predicate Carried(cfg: Config, s: State, t: State) {
    forall a :: a in t.pending ==> (a in s.pending && Steady(cfg, s, t, a)) || Covered(cfg, t, a)
  }

  lemma GrantCovered(cfg: Config, s: State, t: State)
    requires AllCovered(cfg, s) && Carried(cfg, s, t)
    ensures AllCovered(cfg, t.(pending := GrantAll(cfg, s, t, t.pending)))
  {
    hide Steady, Serves, Remaining, Gain;
    var all := GrantAll(cfg, s, t, t.pending);
    var u := t.(pending := all);
    forall a | a in all ensures Covered(cfg, u, a) {
      var i :| 0 <= i < |all| && all[i] == a;
      var b := t.pending[i];
      assert b in t.pending;
      if b in s.pending && Steady(cfg, s, t, b) {
        SteadyCovered(cfg, s, t, b);
      }
      GrantedCovered(cfg, s, t, b, all);
    }
  }

  lemma GrantedCovered(cfg: Config, s: State, t: State, b: Attempt, all: seq<Attempt>)
    requires Covered(cfg, t, b) || Covered(cfg, t, Granted(cfg, s, t, b))
    ensures Covered(cfg, t.(pending := all), Granted(cfg, s, t, b))
  {
    hide Budget;
  }

  lemma BeginCarried(cfg: Config, s: State, caller: nat, pattern: Pattern, pick: nat, failures: nat, granted: nat)
    requires Ready(s) && AllPaid(s) && failures + Remaining(cfg, s, pattern) <= granted
    ensures var t := Begin(s, caller, pattern, pick, failures, granted);
            && AllPaid(t) && t.cluster == s.cluster && t.clock == s.clock
            && forall a :: a in t.pending ==> a in s.pending || Covered(cfg, t, a)
  {
    hide Coherent, Matching, Budget, Matches;
    RightSearch(s, pattern);
    KeysInService(s.cluster);
    var found := Online(s.cluster, Search(s, pattern), s.clock);
    if found != [] {
      assert found[pick % |found|] in found;
    }
  }

  lemma GetCarried(cfg: Config, s: State, caller: nat, pattern: Pattern, pick: nat)
    requires Ready(s) && AllPaid(s)
    ensures var t := Begin(s, caller, pattern, pick, 0, Remaining(cfg, s, pattern)); Carried(cfg, s, t) && AllPaid(t)
  {
    hide Begin, Budget;
    BeginCarried(cfg, s, caller, pattern, pick, 0, Remaining(cfg, s, pattern));
  }

  lemma FailedCarried(cfg: Config, s: State, i: nat, pick: nat)
    requires Ready(s) && Linked(s) && AllCovered(cfg, s) && AllPaid(s) && i < |s.pending|
    ensures Carried(cfg, s, Failed(cfg, s, i, pick)) && AllPaid(Failed(cfg, s, i, pick))
  {
    hide Begin, Budget, Ready, ErrorCluster, Matches, Online, NodesLinked;
    var a := s.pending[i];
    assert Known(s.objects, a) && Covered(cfg, s, a);
    ErrorReady(cfg, s, a);
    ErrorBudget(cfg, s, a, a.pattern);
    var t := Error(cfg, s, a).(pending := RemoveAt(s.pending, i));
    forall b | b in t.pending ensures b in s.pending && Steady(cfg, s, t, b) {
      assert Known(s.objects, b);
      ErrorSteady(cfg, s, a, b);
    }
    BeginCarried(cfg, t, a.caller, a.pattern, pick, a.failures + 1, a.granted);
  }

  lemma SucceededCarried(cfg: Config, s: State, i: nat)
    requires Linked(s) && AllCovered(cfg, s) && AllPaid(s) && i < |s.pending|
    ensures Carried(cfg, s, Succeeded(cfg, s, i)) && AllPaid(Succeeded(cfg, s, i))
  {
    hide Budget, SuccessCluster, Matches, NodesLinked;
    var a := s.pending[i];
    assert Known(s.objects, a) && Covered(cfg, s, a);
    var t := Succeeded(cfg, s, i);
    forall b | b in t.pending ensures b in s.pending && Steady(cfg, s, t, b) {
      SuccessSteady(cfg, s, a, b);
    }
  }

  lemma AddCarried(cfg: Config, s: State, id: Id)
    requires AllPaid(s)
    ensures Carried(cfg, s, NodeAdded(s, id)) && AllPaid(NodeAdded(s, id))
  {
    hide Budget;
  }

  lemma RemoveCarried(cfg: Config, s: State, pattern: Pattern)
    requires Ready(s) && Linked(s) && AllPaid(s)
    ensures Carried(cfg, s, NodesRemoved(s, pattern)) && AllPaid(NodesRemoved(s, pattern))
  {
    hide Budget, Matches, RemoveEach, Ready;
    var t := NodesRemoved(s, pattern);
    forall b | b in t.pending ensures b in s.pending && Steady(cfg, s, t, b) {
      assert Known(s.objects, b);
      RemoveSteady(cfg, s, pattern, b);
    }
  }

  lemma LaterCarried(cfg: Config, s: State, ms: nat)
    requires AllPaid(s)
    ensures var t := s.(clock := s.clock + ms); Carried(cfg, s, t) && AllPaid(t)
  {
    hide Budget;
  }

  /** Every step keeps the books. */
  lemma StepPaid(cfg: Config, s: State, m: Move)
    requires Ready(s) && Linked(s) && AllCovered(cfg, s) && AllPaid(s)
    ensures AllCovered(cfg, Step(cfg, s, m)) && AllPaid(Step(cfg, s, m))
  {
    hide Ready, Linked, AllCovered, Carried, Failed, Succeeded, NodeAdded, NodesRemoved, Begin, Budget;
    match m {
      case Get(caller, pattern, pick) => GetCarried(cfg, s, caller, pattern, pick);
      case Fails(i, pick) => if i < |s.pending| { FailedCarried(cfg, s, i, pick); } else { StillCarried(cfg, s); }
      case Succeeds(i) => if i < |s.pending| { SucceededCarried(cfg, s, i); } else { StillCarried(cfg, s); }
      case Add(id) => AddCarried(cfg, s, id);
      case Remove(pattern) => RemoveCarried(cfg, s, pattern);
      case Later(ms) => LaterCarried(cfg, s, ms);
    }
    GrantCovered(cfg, s, Act(cfg, s, m));
  }

  lemma StillCarried(cfg: Config, s: State)
    ensures Carried(cfg, s, s)
  {
  }

  // ---------------------------------------------------------------- what comes back

  lemma AddGain(cfg: Config, s: State, id: Id, pattern: Pattern)
    requires Ready(s)
    ensures Gain(cfg, s, NodeAdded(s, id), pattern) ==
            if id in s.cluster.nodes || !Matches(pattern.text, id.name) then 0
            else Left(NodeState(|s.objects|, 0, 0), cfg.limit)
  {
    hide Matches, Budget, Coherent, Left;
    if id !in s.cluster.nodes {
      AddedCoherent(s.cluster, id, NodeState(|s.objects|, 0, 0));
      BudgetAt(s.cluster, Added(s, id), id, pattern, cfg.limit, s.clock);
    }
  }

  lemma SuccessOnlyAt(cfg: Config, s: State, a: Attempt)
    requires Ready(s) && Attached(s.cluster, a)
    ensures OnlyAt(s.cluster, SuccessCluster(cfg, s, a), a.id)
  {
    hide Coherent;
    UpdatedCoherent(s.cluster, a.id, AfterSuccess(s.cluster.nodes[a.id], cfg.limit));
  }

  /** A node that is offline has reached the limit. */
  ghost predicate Spent(c: ClusterState, limit: nat) {
    forall id :: id in c.nodes && c.nodes[id].offlineUntil != 0 ==> c.nodes[id].errorCount >= limit
  }

  /** A success gives one failure back to a node of the cluster, at most, whether it was in service or is
      brought back by it; to nodes out of the cluster it gives nothing. */
  lemma SuccessGain(cfg: Config, s: State, i: nat, pattern: Pattern)
    requires Ready(s) && Linked(s) && Spent(s.cluster, cfg.limit) && cfg.limit >= 1 && i < |s.pending|
    ensures Gain(cfg, s, Succeeded(cfg, s, i), pattern) <= if Attached(s.cluster, s.pending[i]) then 1 else 0
  {
    hide Matches, Budget, Ready, OnlyAt, NodesLinked;
    var a := s.pending[i];
    assert Known(s.objects, a);
    if Attached(s.cluster, a) {
      SuccessOnlyAt(cfg, s, a);
      BudgetAt(s.cluster, SuccessCluster(cfg, s, a), a.id, pattern, cfg.limit, s.clock);
    }
  }

  lemma FailedGain(cfg: Config, s: State, i: nat, pick: nat, pattern: Pattern)
    requires Ready(s) && Linked(s) && i < |s.pending|
    ensures Gain(cfg, s, Failed(cfg, s, i, pick), pattern) == 0
  {
    hide Matches, Budget, Ready, ErrorCluster, Search, NodesLinked;
    var a := s.pending[i];
    assert Known(s.objects, a);
    ErrorReady(cfg, s, a);
    ErrorBudget(cfg, s, a, pattern);
  }

  lemma RemoveGain(cfg: Config, s: State, removed: Pattern, pattern: Pattern)
    requires Ready(s)
    ensures Gain(cfg, s, NodesRemoved(s, removed), pattern) == 0
  {
    hide Matches, Budget, Coherent, RemoveEach;
    RemoveBudget(cfg, s.cluster, Search(s, removed), pattern, s.clock);
  }

  /** Time brings back nodes, with one failure left each; without restoring, or at once, it gives nothing. */
  lemma LaterGain(cfg: Config, s: State, ms: nat, pattern: Pattern)
    requires Ready(s) && Limited(s.cluster, cfg.limit, cfg.restore) && Spent(s.cluster, cfg.limit)
    ensures Gain(cfg, s, s.(clock := s.clock + ms), pattern) <=
            if cfg.restore == 0 || ms == 0 then 0 else |s.cluster.serviceable|
  {
    hide Matches;
    if cfg.restore == 0 || ms == 0 {
      SameShares(cfg, s.cluster, s.cluster.serviceable, pattern, s.clock, s.clock + ms);
    } else {
      OneMoreEach(cfg, s.cluster, s.cluster.serviceable, pattern, s.clock, s.clock + ms);
    }
  }

  lemma {:induction false} SameShares(cfg: Config, c: ClusterState, ids: seq<Id>, pattern: Pattern, now: nat,
                                      later: nat)
    requires now == later || forall id :: id in c.nodes ==> c.nodes[id].offlineUntil == 0
    ensures Shares(c, ids, pattern, cfg.limit, later) == Shares(c, ids, pattern, cfg.limit, now)
  {
    hide Matches;
    if ids != [] {
      SameShares(cfg, c, ids[..|ids| - 1], pattern, now, later);
    }
  }

  lemma {:induction false} OneMoreEach(cfg: Config, c: ClusterState, ids: seq<Id>, pattern: Pattern, now: nat,
                                       later: nat)
    requires Spent(c, cfg.limit) && now <= later
    ensures Shares(c, ids, pattern, cfg.limit, later) <= Shares(c, ids, pattern, cfg.limit, now) + |ids|
  {
    hide Matches;
    if ids != [] {
      OneMoreEach(cfg, c, ids[..|ids| - 1], pattern, now, later);
    }
  }

  /** What a step can give back while this many nodes are in service: the limit for a node that is added, one
      for a success, and one for each node when time passes and nodes are restored. */
  function Allowance(cfg: Config, m: Move, nodes: nat): nat {
    match m
    case Add(_) => cfg.limit
    case Succeeds(_) => 1
    case Later(ms) => if cfg.restore == 0 || ms == 0 then 0 else nodes
    case _ => 0
  }

  lemma StepGain(cfg: Config, s: State, m: Move, pattern: Pattern)
    requires Ready(s) && Linked(s) && Limited(s.cluster, cfg.limit, cfg.restore) && Spent(s.cluster, cfg.limit)
             && cfg.limit >= 1
    ensures Gain(cfg, s, Act(cfg, s, m), pattern) <= Allowance(cfg, m, |s.cluster.serviceable|)
  {
    hide Ready, Linked, Limited, Spent, Failed, Succeeded, NodeAdded, NodesRemoved, Matches, Budget;
    match m
    case Get(caller, wanted, pick) =>
    case Fails(i, pick) => if i < |s.pending| { FailedGain(cfg, s, i, pick, pattern); }
    case Succeeds(i) => if i < |s.pending| { SuccessGain(cfg, s, i, pattern); }
    case Add(id) => AddGain(cfg, s, id, pattern);
    case Remove(removed) => RemoveGain(cfg, s, removed, pattern);
    case Later(ms) => LaterGain(cfg, s, ms, pattern);
  }

  // ---------------------------------------------------------------- counts, limits and sizes

  lemma ErrorSpent(cfg: Config, s: State, a: Attempt)
    requires Spent(s.cluster, cfg.limit) && a.pool < |s.objects|
    ensures Spent(ErrorCluster(cfg, s, a), cfg.limit)
  {
    hide Without;
  }

  lemma SuccessSpent(cfg: Config, s: State, a: Attempt)
    requires Spent(s.cluster, cfg.limit)
    ensures Spent(SuccessCluster(cfg, s, a), cfg.limit)
  {
  }

  lemma StepSpent(cfg: Config, s: State, m: Move)
    requires Ready(s) && Linked(s) && Spent(s.cluster, cfg.limit)
    ensures Spent(Step(cfg, s, m).cluster, cfg.limit)
  {
    hide Matches, Budget, Coherent, RemoveEach, Matching, Online, GrantAll, ErrorCluster, SuccessCluster;
    match m
    case Get(caller, wanted, pick) =>
    case Fails(i, pick) =>
      if i < |s.pending| {
        assert Known(s.objects, s.pending[i]);
        ErrorSpent(cfg, s, s.pending[i]);
      }
    case Succeeds(i) =>
      if i < |s.pending| {
        assert Known(s.objects, s.pending[i]);
        SuccessSpent(cfg, s, s.pending[i]);
      }
    case Add(id) =>
    case Remove(removed) => RemoveEachLeaves(s.cluster, Search(s, removed));
    case Later(ms) =>
  }

  lemma {:induction false} WithoutShorter(ids: seq<Id>, id: Id)
    ensures |Without(ids, id)| <= |ids|
  {
    if ids != [] {
      WithoutShorter(ids[..|ids| - 1], id);
    }
  }

  lemma {:induction false} RemoveEachShorter(c: ClusterState, ids: seq<Id>)
    ensures |RemoveEach(c, ids).serviceable| <= |c.serviceable|
  {
    hide Without;
    if ids != [] {
      RemoveEachShorter(c, ids[..|ids| - 1]);
      WithoutShorter(RemoveEach(c, ids[..|ids| - 1]).serviceable, ids[|ids| - 1]);
    }
  }

  /** The ids in service are no more than the nodes added. */
  lemma StepSize(cfg: Config, s: State, m: Move)
    requires Ready(s) && Linked(s)
    ensures |Step(cfg, s, m).cluster.serviceable| <= |s.cluster.serviceable| + if m.Add? then 1 else 0
  {
    hide Matches, Budget, Coherent, RemoveEach, Matching, Online, GrantAll, Without;
    match m
    case Get(caller, wanted, pick) =>
    case Fails(i, pick) =>
      if i < |s.pending| {
        assert Known(s.objects, s.pending[i]);
        WithoutShorter(s.cluster.serviceable, s.pending[i].id);
      }
    case Succeeds(i) =>
    case Add(id) =>
    case Remove(removed) => RemoveEachShorter(s.cluster, Search(s, removed));
    case Later(ms) =>
  }

  lemma ErrorKeepsLimit(cfg: Config, s: State, a: Attempt)
    requires Limited(s.cluster, cfg.limit, cfg.restore) && a.pool < |s.objects|
    ensures Limited(ErrorCluster(cfg, s, a), cfg.limit, cfg.restore)
  {
    hide Limited, AfterError, RemovedFrom;
    if Attached(s.cluster, a) {
      ErrorLimited(s.cluster, a.id, cfg.limit, cfg.restore, s.clock);
    } else {
      RemovedLimited(s.cluster, a.id, a.pool, cfg.limit, cfg.restore);
    }
  }

  lemma StepLimited(cfg: Config, s: State, m: Move)
    requires Ready(s) && Linked(s) && Limited(s.cluster, cfg.limit, cfg.restore) && cfg.limit >= 1
    ensures Limited(Step(cfg, s, m).cluster, cfg.limit, cfg.restore)
  {
    hide Matches, Budget, Coherent, RemoveEach, ErrorCluster, Matching, Online, GrantAll;
    match m
    case Get(caller, wanted, pick) =>
    case Fails(i, pick) =>
      if i < |s.pending| {
        assert Known(s.objects, s.pending[i]);
        ErrorKeepsLimit(cfg, s, s.pending[i]);
      }
    case Succeeds(i) =>
    case Add(id) =>
    case Remove(removed) => RemoveEachLeaves(s.cluster, Search(s, removed));
    case Later(ms) =>
  }

  // ---------------------------------------------------------------- what an answer means

  /** What is true of the cluster when a callback gets its answer. */
  ghost predicate Means(cfg: Config, s: State, r: Reply)
    requires Ready(s)
  {
    match r.answer
    case NoExist => Matching(s.cluster.serviceable, r.pattern) == []
    case NoneOnline => Matching(s.cluster.serviceable, r.pattern) != [] && Found(s.cluster, r.pattern, s.clock) == []
    case ConnectionError(id) => r.failures >= 1 && (cfg.canRetry ==> Found(s.cluster, r.pattern, s.clock) == [])
    case Connected(id) => Matches(r.pattern.text, id.name)
  }

  lemma BeginAnswers(cfg: Config, s: State, caller: nat, pattern: Pattern, pick: nat, failures: nat, granted: nat)
    requires Ready(s)
    ensures var t := Begin(s, caller, pattern, pick, failures, granted);
            Ready(t) && (t.replies == s.replies || exists r :: t.replies == s.replies + [r] && Means(cfg, t, r))
  {
    hide Coherent, Online, Matching, Matches;
    RightSearch(s, pattern);
    BeginReady(s, caller, pattern, pick, failures, granted);
  }

  lemma RetryAnswers(cfg: Config, s: State, a: Attempt, pick: nat)
    requires Ready(s)
    ensures var t := Retry(cfg, s, a, pick);
            Ready(t) && (t.replies == s.replies || exists r :: t.replies == s.replies + [r] && Means(cfg, t, r))
  {
    hide Coherent, Online, Matching, Matches, Begin;
    RightSearch(s, a.pattern);
    BeginAnswers(cfg, s, a.caller, a.pattern, pick, a.failures + 1, a.granted);
  }

  /** A step answers at most one call, and the answer is right at that moment. */
  lemma StepAnswers(cfg: Config, s: State, m: Move)
    requires Ready(s) && Linked(s)
    ensures Ready(Step(cfg, s, m))
    ensures var t := Step(cfg, s, m);
            t.replies == s.replies || exists r :: t.replies == s.replies + [r] && Means(cfg, t, r)
  {
    hide Ready, Coherent, Online, Matching, Matches, Begin, Retry, NodesLinked, ErrorCluster, SuccessCluster, GrantAll,
      Budget;
    StepReady(cfg, s, m);
    match m
    case Get(caller, pattern, pick) => BeginAnswers(cfg, s, caller, pattern, pick, 0, Remaining(cfg, s, pattern));
    case Fails(i, pick) =>
      if i < |s.pending| {
        assert Known(s.objects, s.pending[i]);
        ErrorReady(cfg, s, s.pending[i]);
        RetryAnswers(cfg, Error(cfg, s, s.pending[i]).(pending := RemoveAt(s.pending, i)), s.pending[i], pick);
      }
    case Succeeds(i) => if i < |s.pending| { assert Known(s.objects, s.pending[i]); }
    case Add(id) =>
    case Remove(pattern) =>
    case Later(ms) =>
  }

  // ---------------------------------------------------------------- runs

  ghost function Run(cfg: Config, moves: seq<Move>): (s: State)
    ensures Ready(s) && Linked(s)
  {
    if moves == [] then EMPTY
    else
      var t, m := Run(cfg, moves[..|moves| - 1]), moves[|moves| - 1];
      StepReady(cfg, t, m);
      StepLinked(cfg, t, m);
      Step(cfg, t, m)
  }

  ghost function AllAsked(moves: seq<Move>): multiset<nat> {
    if moves == [] then multiset{} else AllAsked(moves[..|moves| - 1]) + Asked(moves[|moves| - 1])
  }

  function Adds(moves: seq<Move>): nat {
    if moves == [] then 0 else Adds(moves[..|moves| - 1]) + if moves[|moves| - 1].Add? then 1 else 0
  }

  /** The allowances of the moves; no more nodes are in service than were added before. */
  function AllAllowed(cfg: Config, moves: seq<Move>): nat {
    if moves == [] then 0
    else AllAllowed(cfg, moves[..|moves| - 1]) + Allowance(cfg, moves[|moves| - 1], Adds(moves[..|moves| - 1]))
  }

  /** In every reachable state: the ids in service are the nodes' keys and the cached searches are right; an
      attempt waits for a node object that its pattern finds; every callback is waiting or called, once for
      every time it was passed in; and no call was failed more often than the nodes had failures left for it
      when it began, plus what came back since. */
  lemma {:induction false} RunSafe(cfg: Config, moves: seq<Move>)
    requires cfg.limit >= 1
    ensures var s := Run(cfg, moves);
            && Ready(s) && Linked(s) && Limited(s.cluster, cfg.limit, cfg.restore) && Spent(s.cluster, cfg.limit)
            && |s.cluster.serviceable| <= Adds(moves)
            && Everyone(s) == AllAsked(moves)
            && AllCovered(cfg, s) && AllPaid(s)
  {
    if moves != [] {
      var t, m := Run(cfg, moves[..|moves| - 1]), moves[|moves| - 1];
      RunSafe(cfg, moves[..|moves| - 1]);
      hide Ready, Linked, AllCovered, AllPaid, Everyone, Step, Limited, Spent;
      StepLimited(cfg, t, m);
      StepSpent(cfg, t, m);
      StepSize(cfg, t, m);
      StepCallers(cfg, t, m);
      StepPaid(cfg, t, m);
    }
  }

  /** A callback that was passed in once waits for one pool or was called once. */
  lemma AnsweredOnce(cfg: Config, moves: seq<Move>, caller: nat)
    requires cfg.limit >= 1 && AllAsked(moves)[caller] == 1
    ensures var s := Run(cfg, moves);
            (caller in Callers(s.pending) && caller !in Answered(s.replies)) ||
            (caller !in Callers(s.pending) && multiset(Answered(s.replies))[caller] == 1)
  {
    hide Run, AllAsked, Ready, Linked, AllCovered, AllPaid, Limited, Spent;
    RunSafe(cfg, moves);
    var s := Run(cfg, moves);
    assert multiset(Callers(s.pending))[caller] + multiset(Answered(s.replies))[caller] == 1;
  }

  /** The grants of all calls. */
  ghost predicate GrantsWithin(s: State, allowed: nat) {
    (forall a :: a in s.pending ==> a.granted <= allowed) && (forall r :: r in s.replies ==> r.granted <= allowed)
  }

  lemma ActWithin(cfg: Config, s: State, m: Move, allowed: nat)
    requires Ready(s) && Linked(s) && GrantsWithin(s, allowed)
             && forall pattern :: Remaining(cfg, s, pattern) <= allowed
    ensures GrantsWithin(Act(cfg, s, m), allowed)
  {
    hide Ready, Coherent, NodesLinked, Remaining, Online, ErrorCluster, SuccessCluster, Search, Matches, RemoveEach;
    match m
    case Get(caller, pattern, pick) =>
    case Fails(i, pick) =>
      if i < |s.pending| {
        assert Known(s.objects, s.pending[i]);
        ErrorReady(cfg, s, s.pending[i]);
        assert s.pending[i].granted <= allowed;
      }
    case Succeeds(i) =>
      if i < |s.pending| {
        assert Known(s.objects, s.pending[i]);
        assert s.pending[i].granted <= allowed;
      }
    case Add(id) =>
    case Remove(pattern) =>
    case Later(ms) =>
  }

  lemma GrantWithin(cfg: Config, s: State, t: State, allowed: nat, more: nat)
    requires GrantsWithin(t, allowed) && forall pattern :: Gain(cfg, s, t, pattern) <= more
    ensures GrantsWithin(t.(pending := GrantAll(cfg, s, t, t.pending)), allowed + more)
  {
    hide Gain;
    var all := GrantAll(cfg, s, t, t.pending);
    forall a | a in all ensures a.granted <= allowed + more {
      var i :| 0 <= i < |all| && all[i] == a;
      assert t.pending[i] in t.pending;
    }
  }

  lemma StepWithin(cfg: Config, s: State, m: Move, allowed: nat)
    requires Ready(s) && Linked(s) && Limited(s.cluster, cfg.limit, cfg.restore) && Spent(s.cluster, cfg.limit)
             && cfg.limit >= 1
    requires GrantsWithin(s, allowed) && forall pattern :: Remaining(cfg, s, pattern) <= allowed
    ensures var after := allowed + Allowance(cfg, m, |s.cluster.serviceable|);
            GrantsWithin(Step(cfg, s, m), after) && forall pattern :: Remaining(cfg, Step(cfg, s, m), pattern) <= after
  {
    hide Ready, Linked, Limited, Spent, Act, Budget, GrantsWithin, Allowance;
    var t, more := Act(cfg, s, m), Allowance(cfg, m, |s.cluster.serviceable|);
    forall pattern ensures Gain(cfg, s, t, pattern) <= more {
      StepGain(cfg, s, m, pattern);
    }
    ActWithin(cfg, s, m, allowed);
    GrantWithin(cfg, s, t, allowed, more);
    forall pattern ensures Remaining(cfg, Step(cfg, s, m), pattern) <= allowed + more {
      assert Gain(cfg, s, t, pattern) <= more;
    }
  }

  /** A call is failed at most as often as the limit times the nodes added, once more for every success, and
      once more for every node when time passes and nodes are restored; the nodes of a pattern never have
      more failures left than that either. */
  lemma {:induction false} FailuresBounded(cfg: Config, moves: seq<Move>)
    requires cfg.limit >= 1
    ensures var s := Run(cfg, moves);
            && GrantsWithin(s, AllAllowed(cfg, moves))
            && (forall pattern :: Remaining(cfg, s, pattern) <= AllAllowed(cfg, moves))
            && (forall r :: r in s.replies ==> r.failures <= AllAllowed(cfg, moves))
  {
    hide Run, Ready, Linked, Limited, Spent, AllCovered, Everyone, Remaining, Step, GrantsWithin, AllPaid, AllAllowed,
      Allowance;
    RunSafe(cfg, moves);
    if moves == [] {
      NothingGranted(cfg);
    } else {
      var init := moves[..|moves| - 1];
      var t, m := Run(cfg, init), moves[|moves| - 1];
      FailuresBounded(cfg, init);
      RunSafe(cfg, init);
      StepWithin(cfg, t, m, AllAllowed(cfg, init));
      LastMove(cfg, moves);
      GrantsGrow(cfg, Run(cfg, moves), AllAllowed(cfg, init) + Allowance(cfg, m, |t.cluster.serviceable|),
                 AllAllowed(cfg, moves));
    }
    RepliesWithin(Run(cfg, moves), AllAllowed(cfg, moves));
  }

  lemma NothingGranted(cfg: Config)
    ensures GrantsWithin(Run(cfg, []), 0) && AllAllowed(cfg, []) == 0
    ensures forall pattern :: Remaining(cfg, Run(cfg, []), pattern) == 0
  {
  }

  lemma LastMove(cfg: Config, moves: seq<Move>)
    requires moves != []
    ensures var t, m := Run(cfg, moves[..|moves| - 1]), moves[|moves| - 1];
            && Run(cfg, moves) == Step(cfg, t, m)
            && (|t.cluster.serviceable| <= Adds(moves[..|moves| - 1]) ==>
                  AllAllowed(cfg, moves[..|moves| - 1]) + Allowance(cfg, m, |t.cluster.serviceable|) <=
                    AllAllowed(cfg, moves))
  {
    hide Step, Ready, Linked, Adds;
  }

  lemma GrantsGrow(cfg: Config, s: State, allowed: nat, more: nat)
    requires allowed <= more && GrantsWithin(s, allowed) && forall pattern :: Remaining(cfg, s, pattern) <= allowed
    ensures GrantsWithin(s, more) && forall pattern :: Remaining(cfg, s, pattern) <= more
  {
    hide Remaining;
  }

  lemma RepliesWithin(s: State, allowed: nat)
    requires AllPaid(s) && GrantsWithin(s, allowed)
    ensures forall r :: r in s.replies ==> r.failures <= allowed
  {
  }
}
