/** The pool object: the methods of `BasePool` and `PoolConnection` update its queues and flags in
    place, and each is proved to be one step of the machine in module Pools. */
module ConnectionPool {
  import opened Pools

  class Pool {
    const config: Config
    var allConnections: seq<Conn>
    var freeConnections: seq<Conn>
    var connectionQueue: seq<Callback>
    var closed: bool
    /** The flags of every connection object created so far. */
    var connections: seq<Link>
    /** Callbacks handed to `process.nextTick` and to `connect`. */
    var scheduled: seq<Task>
    var resetting: set<Conn>
    var called: seq<(Callback, Answer)>
    ghost var held: set<Conn>
    ghost var known: set<Conn>

    ghost function View(): State
      reads this
    {
      State(connections, allConnections, freeConnections, connectionQueue, closed, scheduled, resetting, held, known,
            called)
    }

    constructor (config: Config)
      ensures View() == EMPTY && this.config == config
    {
      this.config := config;
      allConnections, freeConnections, connectionQueue, closed := [], [], [], false;
      connections, scheduled, resetting, called := [], [], {}, [];
      held, known := {}, {};
    }

    method NextTick(task: Task)
      modifies this`scheduled
      ensures View() == Schedule(old(View()), task)
    {
      scheduled := scheduled + [task];
    }

    method Callback(cb: Callback, answer: Answer)
      modifies this`called
      ensures View() == Call(old(View()), cb, answer)
    {
      called := called + [(cb, answer)];
    }

    method HandOver(cb: Callback, c: Conn)
      modifies this`called, this`held, this`known
      ensures View() == HandOut(old(View()), cb, c)
    {
      held, known := held + {c}, known + {c};
      called := called + [(cb, Got(c))];
    }

    method GetConnection(cb: Callback, now: int)
      modifies this
      ensures View() == Pools.GetConnection(config, old(View()), cb, now)
    {
      if closed {
        NextTick(Fail(cb));
        return;
      }
      if |freeConnections| > 0 {
        var connection := freeConnections[|freeConnections| - 1];
        freeConnections := freeConnections[..|freeConnections| - 1];
        NextTick(Deliver(cb, connection));
        return;
      }
      if config.connectionLimit == 0 || |allConnections| < config.connectionLimit {
        var connection := |connections|;
        connections := connections + [Link(true, false, now)];
        allConnections := allConnections + [connection];
        NextTick(Connect(cb, connection));
        return;
      }
      if !config.waitForConnections {
        NextTick(Fail(cb));
        return;
      }
      if config.queueLimit > 0 && |connectionQueue| >= config.queueLimit {
        Callback(cb, Refused);
        return;
      }
      connectionQueue := connectionQueue + [cb];
    }

    /** A waiting caller, if any, takes the place that became empty. */
    method RetryNext()
      modifies this
      ensures View() == RetryFirst(old(View()))
    {
      if |connectionQueue| > 0 {
        var cb := connectionQueue[0];
        connectionQueue := connectionQueue[1..];
        NextTick(Retry(cb));
      }
    }

    method ReleaseConnection(c: Conn)
      requires c < |connections|
      modifies this
      ensures View() == Pools.ReleaseConnection(config, old(View()), c)
    {
      if !connections[c].pooled {
        RetryNext();
        return;
      }
      if config.resetOnRelease {
        resetting := resetting + {c};
      } else {
        HandleSuccessfulRelease(c);
      }
    }

    method HandleSuccessfulRelease(c: Conn)
      modifies this
      ensures View() == Pools.HandleSuccessfulRelease(old(View()), c)
    {
      if |connectionQueue| > 0 {
        var cb := connectionQueue[0];
        connectionQueue := connectionQueue[1..];
        NextTick(Deliver(cb, c));
      } else {
        freeConnections := freeConnections + [c];
      }
    }

    /** The callback of the reset that `releaseConnection` started. */
    method OnReset(c: Conn, ok: bool)
      modifies this
      ensures View() == ResetDone(old(View()), c, ok)
    {
      if c in resetting && c < |connections| {
        resetting := resetting - {c};
        if ok {
          HandleSuccessfulRelease(c);
        } else {
          connections := connections[c := connections[c].(pooled := false)];
          allConnections := SpliceConnection(allConnections, c);
          RetryNext();
        }
      }
    }

    /** A deferred callback runs on its tick. */
    method OnTick(i: nat, now: int)
      modifies this
      ensures View() == RunTask(config, old(View()), i, now)
    {
      if i < |scheduled| {
        match scheduled[i] {
          case Fail(cb) =>
            scheduled := RemoveAt(scheduled, i);
            Callback(cb, Refused);
          case Retry(cb) =>
            scheduled := RemoveAt(scheduled, i);
            GetConnection(cb, now);
          case Deliver(cb, c) =>
            if c < |connections| {
              scheduled := RemoveAt(scheduled, i);
              connections := connections[c := connections[c].(released := false)];
              HandOver(cb, c);
            }
          case Connect(_, _) =>
        }
      }
    }

    method OnConnect(i: nat, ok: bool)
      modifies this
      ensures View() == Connected(config, old(View()), i, ok)
    {
      if i < |scheduled| && scheduled[i].Connect? {
        var cb, c := scheduled[i].cb, scheduled[i].conn;
        scheduled := RemoveAt(scheduled, i);
        if !ok {
          RemoveFromPool(c);
          Callback(cb, Refused);
        } else if closed {
          Callback(cb, Refused);
        } else {
          HandOver(cb, c);
        }
      }
    }

    /** `PoolConnection.release`. */
    method Release(c: Conn, now: int)
      requires c in known && c < |connections|
      modifies this
      ensures View() == Pools.Release(config, old(View()), c, now)
    {
      if connections[c].released {
        return;
      }
      if !connections[c].pooled || closed {
        return;
      }
      connections := connections[c := connections[c].(released := true)];
      connections := connections[c := connections[c].(lastActiveTime := now)];
      held := held - {c};
      assert connections == old(connections)[c := Link(true, true, now)];
      ReleaseConnection(c);
    }

    /** `PoolConnection._removeFromPool`, which `destroy`, `end`, and the end and error events call. */
    method RemoveFromPool(c: Conn)
      modifies this
      ensures View() == Pools.RemoveFromPool(config, old(View()), c)
    {
      if c >= |connections| || !connections[c].pooled || closed {
        return;
      }
      connections := connections[c := connections[c].(pooled := false)];
      allConnections := SpliceConnection(allConnections, c);
      freeConnections := SpliceConnection(freeConnections, c);
      ReleaseConnection(c);
    }

    method End()
      modifies this
      ensures View() == Pools.End(old(View()))
    {
      closed := true;
      while |connectionQueue| > 0
        invariant View() == old(View()).(closed := true, waiting := connectionQueue, pending := scheduled)
        invariant scheduled + FailAll(connectionQueue) == old(scheduled) + FailAll(old(connectionQueue))
        decreases |connectionQueue|
      {
        var queuedCallback := connectionQueue[0];
        assert FailAll(connectionQueue) == [Fail(queuedCallback)] + FailAll(connectionQueue[1..]);
        connectionQueue := connectionQueue[1..];
        NextTick(Fail(queuedCallback));
      }
    }

    /** The idle reaper's loop on an open pool: it ends after some turns, because each connection it
        destroys leaves the free queue; it removes only connections that are surplus or expired when their
        turn comes, and leaves none that is either at the last turn. The clock is read at every turn. */
    method ReapIdle(clock: nat -> int) returns (turns: nat)
      requires Safe(config, View()) && FreeListed(View()) && !closed
      modifies this
      ensures Safe(config, View()) && FreeListed(View()) && connectionQueue == old(connectionQueue)
      ensures Reaped(config, old(View()), View(), turns, clock)
      ensures |freeConnections| <= config.maxIdle
      ensures old(Sorted(View())) ==> forall c :: c in freeConnections ==> !Expired(config, View(), c, clock(turns))
    {
      hide Linked, Retries, Delivering, Connecting, Idle, Busy, Owed;
      turns := 0;
      FirstIsListed(View());
      while |freeConnections| > config.maxIdle
        || (|freeConnections| > 0 && clock(turns) - connections[freeConnections[0]].lastActiveTime > config.idleTimeout)
        invariant Safe(config, View()) && FreeListed(View()) && !closed
        invariant Reaped(config, old(View()), View(), turns, clock)
        invariant |freeConnections| > 0 ==> freeConnections[0] < |connections|
        decreases |freeConnections|
      {
        ReapStep(config, old(View()), View(), turns, clock);
        RemoveFromPool(freeConnections[0]);
        FirstIsListed(View());
        turns := turns + 1;
      }
      if old(Sorted(View())) {
        ReapedSorted(config, old(View()), View(), turns, clock);
      }
    }
  }

  /** The helper that takes a connection out of a queue: the first match, when there is one. */
  method SpliceConnection(queue: seq<Conn>, connection: Conn) returns (rest: seq<Conn>)
    ensures rest == Without<Conn>(queue, connection)
  {
    hide Without;
    var len := |queue|;
    for i := 0 to len
      invariant Without<Conn>(queue, connection) == queue[..i] + Without<Conn>(queue[i..], connection)
    {
      WithoutAt(queue, connection, i);
      if queue[i] == connection {
        return queue[..i] + queue[i + 1..];
      }
    }
    rest := queue;
    WithoutNothing(queue, connection);
  }

  lemma WithoutAt(queue: seq<Conn>, connection: Conn, i: nat)
    requires i < |queue|
    ensures queue[..i] + Without<Conn>(queue[i..], connection) ==
            queue[..if queue[i] == connection then i else i + 1] +
            if queue[i] == connection then queue[i + 1..] else Without<Conn>(queue[i + 1..], connection)
  {
    assert queue[i..][1..] == queue[i + 1..] && queue[i..][0] == queue[i];
    assert queue[..i] + [queue[i]] == queue[..i + 1];
  }

  lemma WithoutNothing(queue: seq<Conn>, connection: Conn)
    ensures queue[..|queue|] + Without<Conn>(queue[|queue|..], connection) == queue
  {
    assert queue[|queue|..] == [];
  }

  // ---------------------------------------------------------------- the reaper

  predicate Expired(cfg: Config, s: State, c: Conn, now: int) {
    c < |s.links| && now - s.links[c].lastActiveTime > cfg.idleTimeout
  }

  /** The first `k` free connections are gone, each surplus or expired at the clock reading of its turn; the
      rest are as before. */
  ghost predicate Reaped(cfg: Config, s: State, t: State, k: nat, clock: nat -> int) {
    && k <= |s.free| && t.free == s.free[k..] && t.waiting == s.waiting
    && (forall j :: 0 <= j < k ==> |s.free| - j > cfg.maxIdle || Expired(cfg, s, s.free[j], clock(j)))
    && |t.links| == |s.links|
    && (forall c: Conn :: c < |s.links| ==> t.links[c].lastActiveTime == s.links[c].lastActiveTime)
    && (forall j :: 0 <= j < k ==> s.free[j] < |t.links| && !t.links[s.free[j]].pooled)
  }

  lemma WithoutFirst(s: seq<Conn>)
    requires s != []
    ensures Without<Conn>(s, s[0]) == s[1..]
  {
  }

  /** Destroying the oldest free connection takes exactly that one out. */
  lemma OldestTaken(cfg: Config, t: State)
    requires Safe(cfg, t) && FreeListed(t) && !t.closed && t.free != []
    ensures var c, u := t.free[0], RemoveFromPool(cfg, t, t.free[0]);
            && Safe(cfg, u) && FreeListed(u) && !u.closed && u.free == t.free[1..] && u.waiting == t.waiting
            && c < |t.links| && u.links == t.links[c := t.links[c].(pooled := false)]
  {
    hide Retries, Delivering, Connecting, Idle, Busy, Owed;
    var c := t.free[0];
    assert c in t.free;
    LinkedWeaker(t, c);
    RemoveFromPoolSafe(cfg, t, c);
    FreeOnce(t, c);
    FreeListedRemove(cfg, t, c);
    WithoutFirst(t.free);
  }

  lemma ReapStep(cfg: Config, s: State, t: State, k: nat, clock: nat -> int)
    requires Safe(cfg, t) && FreeListed(t) && !t.closed && Reaped(cfg, s, t, k, clock)
    requires t.free != [] && (|t.free| > cfg.maxIdle || Expired(cfg, t, t.free[0], clock(k)))
    ensures var u := RemoveFromPool(cfg, t, t.free[0]);
            Safe(cfg, u) && FreeListed(u) && !u.closed && Reaped(cfg, s, u, k + 1, clock) && |u.free| < |t.free|
  {
    hide Safe, FreeListed, RemoveFromPool;
    OldestTaken(cfg, t);
    assert s.free[k..][1..] == s.free[k + 1..];
  }

  lemma FirstIsListed(s: State)
    requires FreeListed(s)
    ensures s.free != [] ==> s.free[0] < |s.links|
  {
    assert s.free != [] ==> s.free[0] in s.free;
  }

  function Time(links: seq<Link>, c: Conn): int {
    if c < |links| then links[c].lastActiveTime else 0
  }

  ghost predicate SortedBy(links: seq<Link>, queue: seq<Conn>) {
    queue == [] || ((forall c :: c in queue[1..] ==> Time(links, queue[0]) <= Time(links, c))
                    && SortedBy(links, queue[1..]))
  }

  /** The free queue is ordered by the time of release. */
  ghost predicate Sorted(s: State) {
    SortedBy(s.links, s.free)
  }

  /** Every connection of the queue was released no later than `clock`. */
  ghost predicate NotAfter(links: seq<Link>, queue: seq<Conn>, clock: int) {
    forall c :: c in queue ==> Time(links, c) <= clock
  }

  lemma {:induction false} SortedSuffix(links: seq<Link>, queue: seq<Conn>, k: nat)
    requires SortedBy(links, queue) && k < |queue|
    ensures forall c :: c in queue[k..] ==> Time(links, queue[k]) <= Time(links, c)
  {
    if k > 0 {
      SortedSuffix(links, queue[1..], k - 1);
      assert queue[1..][k - 1..] == queue[k..];
    } else {
      assert queue == [queue[0]] + queue[1..];
    }
  }

  lemma {:induction false} SortedSnoc(links: seq<Link>, queue: seq<Conn>, c: Conn)
    requires SortedBy(links, queue) && NotAfter(links, queue, Time(links, c))
    ensures SortedBy(links, queue + [c])
  {
    if queue == [] {
      assert (queue + [c])[1..] == [];
    } else {
      SortedSnoc(links, queue[1..], c);
      assert (queue + [c])[1..] == queue[1..] + [c];
    }
  }

  lemma {:induction false} SortedInit(links: seq<Link>, queue: seq<Conn>)
    requires SortedBy(links, queue) && queue != []
    ensures SortedBy(links, queue[..|queue| - 1])
  {
    if |queue| > 1 {
      SortedInit(links, queue[1..]);
      assert queue[..|queue| - 1][1..] == queue[1..][..|queue[1..]| - 1];
      assert forall c :: c in queue[1..][..|queue[1..]| - 1] ==> c in queue[1..];
    }
  }

  lemma {:induction false} SortedWithout(links: seq<Link>, queue: seq<Conn>, x: Conn)
    requires SortedBy(links, queue)
    ensures SortedBy(links, Without<Conn>(queue, x))
  {
    if queue != [] && queue[0] != x {
      SortedWithout(links, queue[1..], x);
      WithoutMembers<Conn>(queue[1..], x);
      assert Without<Conn>(queue, x)[1..] == Without<Conn>(queue[1..], x);
    }
  }

  /** Only the times of the queue's own connections matter. */
  lemma {:induction false} SortedSameTimes(links: seq<Link>, links': seq<Link>, queue: seq<Conn>)
    requires SortedBy(links, queue) && forall c :: c in queue ==> Time(links', c) == Time(links, c)
    ensures SortedBy(links', queue)
  {
    if queue != [] {
      SortedSameTimes(links, links', queue[1..]);
    }
  }

  lemma ReapedSorted(cfg: Config, s: State, t: State, k: nat, clock: nat -> int)
    requires Reaped(cfg, s, t, k, clock) && Sorted(s)
    requires t.free == [] || (t.free[0] < |t.links| && !Expired(cfg, t, t.free[0], clock(k)))
    ensures forall c :: c in t.free ==> !Expired(cfg, t, c, clock(k))
  {
    if t.free != [] {
      SortedSuffix(s.links, s.free, k);
      assert t.free[0] == s.free[k];
    }
  }

  /** With a clock that never goes back, and no resets, every step keeps the free queue sorted. */
  lemma StepSorted(cfg: Config, s: State, e: Event, now: int, clock: int)
    requires Safe(cfg, s) && FreeListed(s) && Sorted(s) && NotAfter(s.links, s.free, clock) && clock <= now
    requires !cfg.resetOnRelease && s.resetting == {}
    ensures var t := Step(cfg, s, e, now); Sorted(t) && NotAfter(t.links, t.free, now) && t.resetting == {}
  {
    hide Linked, Retries, Idle, Busy, Owed, GetConnection, RemoveFromPool, Release, SortedBy;
    match e
    case EvGet(cb) => SortedGet(cfg, s, cb, now);
    case EvTask(i) =>
      if i < |s.pending| {
        SortedTask(cfg, s, i, now);
      }
    case EvConnected(i, ok) =>
      if i < |s.pending| && s.pending[i].Connect? {
        SortedRemove(cfg, s.(pending := RemoveAt(s.pending, i)), s.pending[i].conn, now);
      }
    case EvRelease(c) => SortedRelease(cfg, s, c, now);
    case EvLost(c) => SortedRemove(cfg, s, c, now);
    case EvReset(c, ok) =>
    case EvEnd =>
  }

  lemma SortedGet(cfg: Config, s: State, cb: Callback, now: int)
    requires FreeListed(s) && Sorted(s) && NotAfter(s.links, s.free, now)
    ensures var t := GetConnection(cfg, s, cb, now);
            Sorted(t) && NotAfter(t.links, t.free, now) && t.resetting == s.resetting
  {
    hide SortedBy;
    var t := GetConnection(cfg, s, cb, now);
    if s.free != [] {
      SortedInit(s.links, s.free);
    }
    assert forall c :: c in t.free ==> c in s.free && Time(t.links, c) == Time(s.links, c);
    SortedSameTimes(s.links, t.links, t.free);
  }

  lemma SortedTask(cfg: Config, s: State, i: nat, now: int)
    requires FreeListed(s) && Sorted(s) && NotAfter(s.links, s.free, now) && i < |s.pending|
    ensures var t := RunTask(cfg, s, i, now);
            Sorted(t) && NotAfter(t.links, t.free, now) && t.resetting == s.resetting
  {
    hide GetConnection, SortedBy;
    var t := RunTask(cfg, s, i, now);
    if s.pending[i].Retry? {
      SortedGet(cfg, s.(pending := RemoveAt(s.pending, i)), s.pending[i].cb, now);
    } else {
      assert forall c: Conn :: Time(t.links, c) == Time(s.links, c);
      SortedSameTimes(s.links, t.links, s.free);
    }
  }

  lemma SortedRelease(cfg: Config, s: State, c: Conn, now: int)
    requires Linked(s, {}) && Sorted(s) && NotAfter(s.links, s.free, now) && !cfg.resetOnRelease
    ensures var t := Release(cfg, s, c, now);
            Sorted(t) && NotAfter(t.links, t.free, now) && t.resetting == s.resetting
  {
    hide Linked, SortedBy;
    var t := Release(cfg, s, c, now);
    if t != s {
      HeldBy(s, c);
      FreeOnce(s, c);
      SortedSameTimes(s.links, t.links, s.free);
      SortedSnoc(t.links, s.free, c);
    }
  }

  lemma SortedRemove(cfg: Config, s: State, c: Conn, now: int)
    requires Sorted(s) && NotAfter(s.links, s.free, now) && !cfg.resetOnRelease
    ensures var t := RemoveFromPool(cfg, s, c);
            Sorted(t) && NotAfter(t.links, t.free, now) && t.resetting == s.resetting
  {
    hide SortedBy, Without;
    WithoutMembers<Conn>(s.free, c);
    SortedWithout(s.links, s.free, c);
    var t := RemoveFromPool(cfg, s, c);
    SortedSameTimes(s.links, t.links, t.free);
  }

  /** While a connection is free, a caller is given one that was released no earlier than any other, and no
      connection is made. */
  lemma MostRecentFirst(cfg: Config, s: State, cb: Callback, now: int) returns (c: Conn)
    requires Sorted(s) && !s.closed && s.free != []
    ensures c in s.free && forall d :: d in s.free ==> Time(s.links, d) <= Time(s.links, c)
    ensures var t := GetConnection(cfg, s, cb, now);
            && t.pending == s.pending + [Deliver(cb, c)] && t.links == s.links && t.all == s.all
            && multiset(t.free) == multiset(s.free) - multiset{c}
  {
    hide SortedBy;
    c := s.free[|s.free| - 1];
    assert s.free == s.free[..|s.free| - 1] + [c];
    forall k | 0 <= k < |s.free| ensures Time(s.links, s.free[k]) <= Time(s.links, c) {
      SortedSuffix(s.links, s.free, k);
      assert s.free[k..][|s.free| - 1 - k] == c;
    }
  }

  /** A turn of the reaper's loop makes progress exactly when the pool is open and still owns the oldest
      free connection; on one that a late reset left behind the loop would never end. */
  lemma ReapProgress(cfg: Config, s: State)
    requires Safe(cfg, s) && s.free != []
    ensures RemoveFromPool(cfg, s, s.free[0]) != s <==> !s.closed && s.free[0] < |s.links| && s.links[s.free[0]].pooled
    ensures RemoveFromPool(cfg, s, s.free[0]) != s ==> RemoveFromPool(cfg, s, s.free[0]).free == s.free[1..]
  {
    hide Linked, Retries, Delivering, Connecting, Idle, Busy, Owed;
    WithoutFirst(s.free);
  }

  /** Without resets, and with a clock that never goes back, every run keeps the reaper's assumptions. */
  lemma {:induction false} RunSorted(cfg: Config, events: seq<(Event, int)>)
    requires !cfg.resetOnRelease
    requires forall i, j :: 0 <= i < j < |events| ==> events[i].1 <= events[j].1
    ensures var s := Run(cfg, events);
            && FreeListed(s) && Sorted(s) && s.resetting == {}
            && forall clock :: (forall k :: 0 <= k < |events| ==> events[k].1 <= clock) ==>
                 NotAfter(s.links, s.free, clock)
  {
    if events != [] {
      var init := events[..|events| - 1];
      var (e, now) := events[|events| - 1];
      RunSorted(cfg, init);
      RunSafe(cfg, init);
      hide Linked, Step, SortedBy;
      var s := Run(cfg, init);
      assert forall k :: 0 <= k < |init| ==> init[k] == events[k];
      FreeListedStep(cfg, s, e, now);
      StepSorted(cfg, s, e, now, now);
      assert Run(cfg, events) == Step(cfg, s, e, now);
    }
  }
}
