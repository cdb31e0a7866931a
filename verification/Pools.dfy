/** The connection pool of lib/base/pool.js and lib/pool_connection.js as a machine of steps:
    calls of the pool, deferred callbacks, connect and reset completions, lost connections. */
module Pools {

  type Conn = nat
  type Callback = nat

  datatype Config = Config(
    connectionLimit: nat,
    waitForConnections: bool, queueLimit: nat,
    maxIdle: nat, idleTimeout: nat,
    resetOnRelease: bool)

  /** The flags of a pool connection: `_pool` is set, `_released`, and `lastActiveTime`. */
  datatype Link = Link(pooled: bool, released: bool, lastActiveTime: int)

  datatype Answer = Refused | Got(conn: Conn)

  /** A callback on its way: an error or a connection to deliver on the next tick, a call of
      `getConnection` on the next tick, or a connection that is being established. */
  datatype Task =
    | Fail(cb: Callback)
    | Deliver(cb: Callback, conn: Conn)
    | Retry(cb: Callback)
    | Connect(cb: Callback, conn: Conn)

  datatype State = State(
    links: seq<Link>,
    all: seq<Conn>, free: seq<Conn>,
    waiting: seq<Callback>, closed: bool,
    pending: seq<Task>, resetting: set<Conn>,
    /** Connections handed to a callback and not released since, and all ever handed out. */
    held: set<Conn>,
    known: set<Conn>, called: seq<(Callback, Answer)>)

  const EMPTY := State([], [], [], [], false, [], {}, {}, {}, [])

  // ---------------------------------------------------------------- steps

  function Without<T(==)>(s: seq<T>, x: T): seq<T> {
    if s == [] then [] else if s[0] == x then s[1..] else [s[0]] + Without(s[1..], x)
  }

  function RemoveAt<T>(s: seq<T>, i: nat): seq<T>
    requires i < |s|
  {
    s[..i] + s[i + 1..]
  }

  function Schedule(s: State, t: Task): State {
    s.(pending := s.pending + [t])
  }

  function Call(s: State, cb: Callback, answer: Answer): State {
    s.(called := s.called + [(cb, answer)])
  }

  function HandOut(s: State, cb: Callback, c: Conn): State {
    Call(s, cb, Got(c)).(held := s.held + {c}, known := s.known + {c})
  }

  function SetLink(s: State, c: Conn, link: Link): State
    requires c < |s.links|
  {
    s.(links := s.links[c := link])
  }

  function GetConnection(cfg: Config, s: State, cb: Callback, now: int): State {
    if s.closed then Schedule(s, Fail(cb))
    else if s.free != [] then
      Schedule(s.(free := s.free[..|s.free| - 1]), Deliver(cb, s.free[|s.free| - 1]))
    else if cfg.connectionLimit == 0 || |s.all| < cfg.connectionLimit then
      var c := |s.links|;
      Schedule(s.(links := s.links + [Link(true, false, now)], all := s.all + [c]), Connect(cb, c))
    else if !cfg.waitForConnections then Schedule(s, Fail(cb))
    else if cfg.queueLimit > 0 && |s.waiting| >= cfg.queueLimit then Call(s, cb, Refused)
    else s.(waiting := s.waiting + [cb])
  }

  /** A place in the pool has become empty: the first waiting caller tries again. */
  function RetryFirst(s: State): State {
    if s.waiting == [] then s
    else Schedule(s.(waiting := s.waiting[1..]), Retry(s.waiting[0]))
  }

  function HandleSuccessfulRelease(s: State, c: Conn): State {
    if s.waiting == [] then s.(free := s.free + [c])
    else Schedule(s.(waiting := s.waiting[1..]), Deliver(s.waiting[0], c))
  }

  function ReleaseConnection(cfg: Config, s: State, c: Conn): State
    requires c < |s.links|
  {
    if !s.links[c].pooled then RetryFirst(s)
    else if cfg.resetOnRelease then s.(resetting := s.resetting + {c})
    else HandleSuccessfulRelease(s, c)
  }

  /** `PoolConnection.release`; only a connection that was handed out can be released. */
  function Release(cfg: Config, s: State, c: Conn, now: int): State {
    if c !in s.known || c >= |s.links| || s.links[c].released || !s.links[c].pooled || s.closed then s
    else ReleaseConnection(cfg, SetLink(s, c, Link(true, true, now)).(held := s.held - {c}), c)
  }

  /** `PoolConnection._removeFromPool`, on `destroy`, `end` or an error. */
  function RemoveFromPool(cfg: Config, s: State, c: Conn): State {
    if c >= |s.links| || !s.links[c].pooled || s.closed then s
    else
      ReleaseConnection(
        cfg,
        SetLink(s, c, s.links[c].(pooled := false)).(all := Without<Conn>(s.all, c), free := Without<Conn>(s.free, c)),
        c)
  }

  function ResetDone(s: State, c: Conn, ok: bool): State {
    if c !in s.resetting || c >= |s.links| then s
    else
      var t := s.(resetting := s.resetting - {c});
      if ok then HandleSuccessfulRelease(t, c)
      else RetryFirst(SetLink(t, c, s.links[c].(pooled := false)).(all := Without<Conn>(s.all, c)))
  }

  function RunTask(cfg: Config, s: State, i: nat, now: int): State {
    if i >= |s.pending| then s
    else
      var t := s.(pending := RemoveAt(s.pending, i));
      match s.pending[i]
      case Fail(cb) => Call(t, cb, Refused)
      case Retry(cb) => GetConnection(cfg, t, cb, now)
      case Deliver(cb, c) =>
        if c >= |s.links| then s else HandOut(SetLink(t, c, s.links[c].(released := false)), cb, c)
      case Connect(_, _) => s
  }

  /** The connect callback; an error event removes the connection before the callback sees it. */
  function Connected(cfg: Config, s: State, i: nat, ok: bool): State {
    if i >= |s.pending| || !s.pending[i].Connect? then s
    else
      var t, cb, c := s.(pending := RemoveAt(s.pending, i)), s.pending[i].cb, s.pending[i].conn;
      if !ok then Call(RemoveFromPool(cfg, t, c), cb, Refused)
      else if s.closed then Call(t, cb, Refused)
      else HandOut(t, cb, c)
  }

  function FailAll(cbs: seq<Callback>): seq<Task> {
    if cbs == [] then [] else [Fail(cbs[0])] + FailAll(cbs[1..])
  }

  function End(s: State): State {
    s.(closed := true, waiting := [], pending := s.pending + FailAll(s.waiting))
  }

  datatype Event =
    | EvGet(cb: Callback)
    | EvTask(i: nat)
    | EvConnected(i: nat, ok: bool)
    | EvRelease(c: Conn)
    | EvLost(c: Conn)
    | EvReset(c: Conn, ok: bool)
    | EvEnd

  function Step(cfg: Config, s: State, e: Event, now: int): State {
    match e
    case EvGet(cb) => GetConnection(cfg, s, cb, now)
    case EvTask(i) => RunTask(cfg, s, i, now)
    case EvConnected(i, ok) => Connected(cfg, s, i, ok)
    case EvRelease(c) => Release(cfg, s, c, now)
    case EvLost(c) => RemoveFromPool(cfg, s, c)
    case EvReset(c, ok) => ResetDone(s, c, ok)
    case EvEnd => End(s)
  }

  function Run(cfg: Config, events: seq<(Event, int)>): State {
    if events == [] then EMPTY
    else
      var (e, now) := events[|events| - 1];
      Step(cfg, Run(cfg, events[..|events| - 1]), e, now)
  }

  // ---------------------------------------------------------------- where things are

  function Retries(tasks: seq<Task>): nat {
    if tasks == [] then 0 else Retries(tasks[..|tasks| - 1]) + if tasks[|tasks| - 1].Retry? then 1 else 0
  }

  function Callbacks(tasks: seq<Task>): multiset<Callback> {
    if tasks == [] then multiset{} else Callbacks(tasks[..|tasks| - 1]) + multiset{tasks[|tasks| - 1].cb}
  }

  function Answered(called: seq<(Callback, Answer)>): multiset<Callback> {
    if called == [] then multiset{} else Answered(called[..|called| - 1]) + multiset{called[|called| - 1].0}
  }

  function DeliverOf(t: Task): multiset<Conn> {
    if t.Deliver? then multiset{t.conn} else multiset{}
  }

  function ConnectOf(t: Task): multiset<Conn> {
    if t.Connect? then multiset{t.conn} else multiset{}
  }

  function Delivering(tasks: seq<Task>): multiset<Conn> {
    if tasks == [] then multiset{} else Delivering(tasks[..|tasks| - 1]) + DeliverOf(tasks[|tasks| - 1])
  }

  function Connecting(tasks: seq<Task>): multiset<Conn> {
    if tasks == [] then multiset{} else Connecting(tasks[..|tasks| - 1]) + ConnectOf(tasks[|tasks| - 1])
  }

  /** Connections nobody may use: free, on the way to a callback, or being reset. */
  function Idle(s: State): multiset<Conn> {
    multiset(s.free) + Delivering(s.pending) + multiset(s.resetting)
  }

  /** Connections in use: being established, or held by the callback they were handed to. */
  function Busy(s: State): multiset<Conn> {
    Connecting(s.pending) + multiset(s.held)
  }

  /** Where callbacks are: waiting, on their way, or called. */
  function Owed(s: State): multiset<Callback> {
    multiset(s.waiting) + Callbacks(s.pending) + Answered(s.called)
  }

  /** Every callback passed to `getConnection`, in order. */
  function Issued(events: seq<(Event, int)>): multiset<Callback> {
    if events == [] then multiset{}
    else
      Issued(events[..|events| - 1]) +
      var e := events[|events| - 1].0; if e.EvGet? then multiset{e.cb} else multiset{}
  }

  lemma TasksSnoc(tasks: seq<Task>, t: Task)
    ensures Retries(tasks + [t]) == Retries(tasks) + if t.Retry? then 1 else 0
    ensures Callbacks(tasks + [t]) == Callbacks(tasks) + multiset{t.cb}
    ensures Delivering(tasks + [t]) == Delivering(tasks) + DeliverOf(t)
    ensures Connecting(tasks + [t]) == Connecting(tasks) + ConnectOf(t)
  {
    assert (tasks + [t])[..|tasks|] == tasks;
  }

  lemma {:induction false} TasksAt(tasks: seq<Task>, i: nat)
    requires i < |tasks|
    ensures Retries(tasks) == Retries(RemoveAt(tasks, i)) + if tasks[i].Retry? then 1 else 0
    ensures Callbacks(tasks) == Callbacks(RemoveAt(tasks, i)) + multiset{tasks[i].cb}
    ensures Delivering(tasks) == Delivering(RemoveAt(tasks, i)) + DeliverOf(tasks[i])
    ensures Connecting(tasks) == Connecting(RemoveAt(tasks, i)) + ConnectOf(tasks[i])
  {
    hide Retries, Callbacks, Delivering, Connecting, DeliverOf, ConnectOf;
    var init, last := tasks[..|tasks| - 1], tasks[|tasks| - 1];
    assert tasks == init + [last];
    TasksSnoc(init, last);
    if i < |init| {
      TasksAt(init, i);
      assert RemoveAt(tasks, i) == RemoveAt(init, i) + [last];
      TasksSnoc(RemoveAt(init, i), last);
    } else {
      assert RemoveAt(tasks, i) == init;
    }
  }

  lemma MultisetCons<T>(x: T, rest: seq<T>)
    ensures multiset([x] + rest) == multiset{x} + multiset(rest)
  {
  }

  lemma WithoutElements<T>(s: seq<T>, x: T)
    ensures multiset(Without(s, x)) == multiset(s) - multiset{x}
    ensures |Without(s, x)| == |s| - if x in s then 1 else 0
  {
    WithoutMultiset(s, x);
    WithoutLength(s, x);
  }

  lemma {:induction false} WithoutMultiset<T>(s: seq<T>, x: T)
    ensures multiset(Without(s, x)) == multiset(s) - multiset{x}
  {
    if s != [] {
      var rest := s[1..];
      assert s == [s[0]] + rest;
      MultisetCons(s[0], rest);
      if s[0] != x {
        WithoutMultiset(rest, x);
        MultisetCons(s[0], Without(rest, x));
      }
    }
  }

  lemma {:induction false} WithoutLength<T>(s: seq<T>, x: T)
    ensures |Without(s, x)| == |s| - if x in s then 1 else 0
  {
    if s != [] {
      assert s == [s[0]] + s[1..];
      if s[0] != x {
        WithoutLength(s[1..], x);
      }
    }
  }

  lemma {:induction false} FailAllTasks(tasks: seq<Task>, cbs: seq<Callback>)
    ensures Retries(tasks + FailAll(cbs)) == Retries(tasks)
    ensures Callbacks(tasks + FailAll(cbs)) == Callbacks(tasks) + multiset(cbs)
    ensures Delivering(tasks + FailAll(cbs)) == Delivering(tasks)
    ensures Connecting(tasks + FailAll(cbs)) == Connecting(tasks)
    decreases |cbs|
  {
    hide Retries, Callbacks, Delivering, Connecting;
    if cbs == [] {
      assert tasks + FailAll(cbs) == tasks;
    } else {
      assert tasks + FailAll(cbs) == (tasks + [Fail(cbs[0])]) + FailAll(cbs[1..]);
      FailAllTasks(tasks + [Fail(cbs[0])], cbs[1..]);
      TasksSnoc(tasks, Fail(cbs[0]));
      assert cbs == [cbs[0]] + cbs[1..];
    }
  }

  // ---------------------------------------------------------------- invariants

  /** Membership and flags: `all` lists exactly the pooled connections, once each; a connection is in
      at most one place; only connections nobody may use are marked released. `lost` are connections
      between two places. */
  ghost predicate LinkedAt(links: seq<Link>, all: seq<Conn>, idle: multiset<Conn>, busy: multiset<Conn>,
                           held: set<Conn>, known: set<Conn>, closed: bool, lost: set<Conn>)
  {
    && (forall c :: c in all ==> c < |links|)
    && (forall c: Conn :: c < |links| ==> multiset(all)[c] == if links[c].pooled then 1 else 0)
    && (forall c :: c in idle ==> c < |links| && links[c].released && idle[c] == 1)
    && (forall c :: c in busy ==> c < |links| && !links[c].released && busy[c] == 1)
    && held <= known
    && (forall c :: c in known ==> c < |links| && (links[c].released || c in held))
    && (!closed ==> forall c :: c in all ==> c in idle || c in busy || c in lost)
  }

  ghost predicate Linked(s: State, lost: set<Conn>) {
    LinkedAt(s.links, s.all, Idle(s), Busy(s), s.held, s.known, s.closed, lost)
  }

  /** The queues: the connection limit, no free connection while a caller waits, and no lost wakeup. */
  ghost predicate Queued(cfg: Config, s: State) {
    && (cfg.connectionLimit > 0 ==> |s.all| <= cfg.connectionLimit)
    && (s.closed || cfg.connectionLimit == 0 || s.free != [] ==> s.waiting == [])
    && (s.waiting != [] ==> |s.all| + Retries(s.pending) >= cfg.connectionLimit)
  }

  ghost predicate Safe(cfg: Config, s: State) {
    Linked(s, {}) && Queued(cfg, s)
  }

  // ---------------------------------------------------------------- what one move does to them

  lemma CreateLinked(links: seq<Link>, all: seq<Conn>, idle: multiset<Conn>, busy: multiset<Conn>,
                     held: set<Conn>, known: set<Conn>, now: int)
    requires LinkedAt(links, all, idle, busy, held, known, false, {})
    ensures LinkedAt(links + [Link(true, false, now)], all + [|links|], idle, busy + multiset{|links|}, held, known,
                     false, {})
  {
    var c, all', links' := |links|, all + [|links|], links + [Link(true, false, now)];
    assert c !in all && c !in idle && c !in busy && c !in known;
    assert multiset(all') == multiset(all) + multiset{c};
    forall d: Conn | d < |links'|
      ensures multiset(all')[d] == if links'[d].pooled then 1 else 0
    {
      assert d != c ==> links'[d] == links[d];
      assert c !in multiset(all);
    }
  }

  /** A connection between two places arrives at one where nobody may use it. */
  lemma PlaceLinked(links: seq<Link>, all: seq<Conn>, idle: multiset<Conn>, busy: multiset<Conn>,
                    held: set<Conn>, known: set<Conn>, closed: bool, c: Conn)
    requires LinkedAt(links, all, idle, busy, held, known, closed, {c})
    requires c < |links| && links[c].released && c !in idle
    ensures LinkedAt(links, all, idle + multiset{c}, busy, held, known, closed, {})
  {
  }

  lemma ReleaseLinked(links: seq<Link>, all: seq<Conn>, idle: multiset<Conn>, busy: multiset<Conn>,
                      held: set<Conn>, known: set<Conn>, closed: bool, c: Conn, now: int)
    requires LinkedAt(links, all, idle, busy, held, known, closed, {})
    requires c in held && c in busy && links[c].pooled
    ensures c !in idle
    ensures LinkedAt(links[c := Link(true, true, now)], all, idle, busy - multiset{c}, held - {c}, known, closed, {c})
  {
  }

  lemma DeliverLinked(links: seq<Link>, all: seq<Conn>, idle: multiset<Conn>, busy: multiset<Conn>,
                      held: set<Conn>, known: set<Conn>, closed: bool, c: Conn)
    requires LinkedAt(links, all, idle, busy, held, known, closed, {}) && c in idle
    ensures c !in busy
    ensures LinkedAt(links[c := links[c].(released := false)], all, idle - multiset{c}, busy + multiset{c},
                     held + {c}, known + {c}, closed, {})
  {
  }

  lemma ConnectedLinked(links: seq<Link>, all: seq<Conn>, idle: multiset<Conn>, busy: multiset<Conn>,
                        held: set<Conn>, known: set<Conn>, closed: bool, c: Conn)
    requires LinkedAt(links, all, idle, busy, held, known, closed, {}) && c in busy
    ensures LinkedAt(links, all, idle, busy, held + {c}, known + {c}, closed, {})
  {
  }

  /** A connection that was being established is between two places. */
  lemma TakeBusyLinked(links: seq<Link>, all: seq<Conn>, idle: multiset<Conn>, busy: multiset<Conn>,
                       held: set<Conn>, known: set<Conn>, closed: bool, c: Conn)
    requires LinkedAt(links, all, idle, busy, held, known, closed, {})
    ensures LinkedAt(links, all, idle, busy - multiset{c}, held, known, closed, {c})
  {
  }

  /** Nobody misses a connection the pool does not list. */
  lemma NotMissed(links: seq<Link>, all: seq<Conn>, idle: multiset<Conn>, busy: multiset<Conn>,
                  held: set<Conn>, known: set<Conn>, closed: bool, c: Conn)
    requires LinkedAt(links, all, idle, busy, held, known, closed, {c})
    requires closed || (c < |links| ==> !links[c].pooled)
    ensures LinkedAt(links, all, idle, busy, held, known, closed, {})
  {
    assert c in all ==> multiset(all)[c] >= 1;
  }

  /** The pool forgets a connection, wherever it is. */
  lemma ForgetLinked(links: seq<Link>, all: seq<Conn>, idle: multiset<Conn>, busy: multiset<Conn>,
                     held: set<Conn>, known: set<Conn>, closed: bool, c: Conn, rest: seq<Conn>,
                       idleRest: multiset<Conn>)
    requires LinkedAt(links, all, idle, busy, held, known, closed, {c}) && c < |links|
    requires multiset(rest) == multiset(all) - multiset{c}
    requires idleRest <= idle && forall d :: d != c ==> idleRest[d] == idle[d]
    ensures LinkedAt(links[c := links[c].(pooled := false)], rest, idleRest, busy, held, known, closed, {})
  {
    var links' := links[c := links[c].(pooled := false)];
    var m, m' := multiset(all), multiset(rest);
    forall d | d in rest
      ensures d in all && d != c
    {
      assert d in m';
    }
    forall d: Conn | d < |links'|
      ensures m'[d] == if links'[d].pooled then 1 else 0
    {
      assert m[d] == if links[d].pooled then 1 else 0;
    }
  }

  lemma LostMore(links: seq<Link>, all: seq<Conn>, idle: multiset<Conn>, busy: multiset<Conn>,
                 held: set<Conn>, known: set<Conn>, closed: bool, c: Conn)
    requires LinkedAt(links, all, idle, busy, held, known, closed, {})
    ensures LinkedAt(links, all, idle, busy, held, known, closed, {c})
  {
  }

  // ---------------------------------------------------------------- each step keeps them

  lemma ScheduleEffect(s: State, t: Task)
    ensures Idle(Schedule(s, t)) == if t.Deliver? then Idle(s) + multiset{t.conn} else Idle(s)
    ensures Busy(Schedule(s, t)) == if t.Connect? then Busy(s) + multiset{t.conn} else Busy(s)
    ensures Owed(Schedule(s, t)) == Owed(s) + multiset{t.cb}
    ensures Retries(Schedule(s, t).pending) == Retries(s.pending) + if t.Retry? then 1 else 0
  {
    hide Retries, Delivering, Connecting, Callbacks, Answered, Idle, Busy, Owed, DeliverOf, ConnectOf;
    TasksSnoc(s.pending, t);
    ScheduleIdle(s, t);
    ScheduleBusy(s, t);
    ScheduleOwed(s, t);
  }

  lemma ScheduleOwed(s: State, t: Task)
    ensures Owed(Schedule(s, t)) == Owed(s) + multiset{t.cb}
  {
    hide Retries, Delivering, Connecting, Callbacks, Answered, DeliverOf, ConnectOf;
    TasksSnoc(s.pending, t);
  }

  lemma ScheduleIdle(s: State, t: Task)
    ensures Idle(Schedule(s, t)) == if t.Deliver? then Idle(s) + multiset{t.conn} else Idle(s)
  {
    TasksSnoc(s.pending, t);
    hide Retries, Delivering, Connecting, Callbacks;
  }

  lemma ScheduleBusy(s: State, t: Task)
    ensures Busy(Schedule(s, t)) == if t.Connect? then Busy(s) + multiset{t.conn} else Busy(s)
  {
    TasksSnoc(s.pending, t);
    hide Retries, Delivering, Connecting, Callbacks;
  }

  /** A task leaves the list; what it carried is the caller's to place. */
  lemma TakeEffect(s: State, i: nat)
    requires i < |s.pending|
    ensures var t, task := s.(pending := RemoveAt(s.pending, i)), s.pending[i];
            && Idle(t) == (if task.Deliver? then Idle(s) - multiset{task.conn} else Idle(s))
                 && (task.Deliver? ==> task.conn in Idle(s))
            && Busy(t) == (if task.Connect? then Busy(s) - multiset{task.conn} else Busy(s))
                 && (task.Connect? ==> task.conn in Busy(s))
            && Owed(s) == Owed(t) + multiset{task.cb}
            && Retries(s.pending) == Retries(t.pending) + if task.Retry? then 1 else 0
  {
    hide Retries, Delivering, Connecting, Callbacks, Answered, Idle, Busy, Owed, DeliverOf, ConnectOf, RemoveAt;
    TasksAt(s.pending, i);
    TakeIdle(s, i);
    TakeBusy(s, i);
    TakeOwed(s, i);
  }

  lemma TakeIdle(s: State, i: nat)
    requires i < |s.pending|
    ensures var t, task := s.(pending := RemoveAt(s.pending, i)), s.pending[i];
            Idle(t) == (if task.Deliver? then Idle(s) - multiset{task.conn} else Idle(s))
              && (task.Deliver? ==> task.conn in Idle(s))
  {
    hide Retries, Delivering, Connecting, Callbacks, RemoveAt;
    TasksAt(s.pending, i);
  }

  lemma TakeBusy(s: State, i: nat)
    requires i < |s.pending|
    ensures var t, task := s.(pending := RemoveAt(s.pending, i)), s.pending[i];
            Busy(t) == (if task.Connect? then Busy(s) - multiset{task.conn} else Busy(s))
              && (task.Connect? ==> task.conn in Busy(s))
  {
    hide Retries, Delivering, Connecting, Callbacks, RemoveAt;
    TasksAt(s.pending, i);
  }

  lemma TakeOwed(s: State, i: nat)
    requires i < |s.pending|
    ensures Owed(s) == Owed(s.(pending := RemoveAt(s.pending, i))) + multiset{s.pending[i].cb}
  {
    hide Retries, Delivering, Connecting, Callbacks, Answered, DeliverOf, ConnectOf, RemoveAt;
    TasksAt(s.pending, i);
  }

  lemma CallEffect(s: State, cb: Callback, answer: Answer)
    ensures Idle(Call(s, cb, answer)) == Idle(s) && Busy(Call(s, cb, answer)) == Busy(s)
    ensures Owed(Call(s, cb, answer)) == Owed(s) + multiset{cb}
  {
    hide Delivering, Connecting, Callbacks;
    assert Call(s, cb, answer).called[..|s.called|] == s.called;
  }

  lemma WaitEffect(s: State, cb: Callback)
    ensures var t := s.(waiting := s.waiting + [cb]);
            Idle(t) == Idle(s) && Busy(t) == Busy(s) && Owed(t) == Owed(s) + multiset{cb}
  {
    hide Delivering, Connecting, Callbacks, Answered;
  }

  lemma NextWaitingEffect(s: State)
    requires s.waiting != []
    ensures var t := s.(waiting := s.waiting[1..]);
            Idle(t) == Idle(s) && Busy(t) == Busy(s) && Owed(s) == Owed(t) + multiset{s.waiting[0]}
  {
    hide Delivering, Connecting, Callbacks, Answered;
    assert s.waiting == [s.waiting[0]] + s.waiting[1..];
  }

  lemma PopFreeEffect(s: State, cb: Callback)
    requires s.free != []
    ensures var t := Schedule(s.(free := s.free[..|s.free| - 1]), Deliver(cb, s.free[|s.free| - 1]));
            && Idle(t) == Idle(s) && Busy(t) == Busy(s) && Owed(t) == Owed(s) + multiset{cb}
            && Retries(t.pending) == Retries(s.pending)
  {
    hide Retries, Delivering, Connecting, Callbacks, Answered;
    var last := s.free[|s.free| - 1];
    ScheduleEffect(s.(free := s.free[..|s.free| - 1]), Deliver(cb, last));
    assert s.free == s.free[..|s.free| - 1] + [last];
  }

  lemma CreateEffect(s: State, cb: Callback, now: int)
    ensures var c := |s.links|;
            var t := Schedule(s.(links := s.links + [Link(true, false, now)], all := s.all + [c]), Connect(cb, c));
            && Idle(t) == Idle(s) && Busy(t) == Busy(s) + multiset{c} && Owed(t) == Owed(s) + multiset{cb}
            && Retries(t.pending) == Retries(s.pending)
  {
    hide Retries, Delivering, Connecting, Callbacks, Answered;
    ScheduleEffect(s.(links := s.links + [Link(true, false, now)], all := s.all + [|s.links|]), Connect(cb, |s.links|));
  }

  /** Changing the places outside the list of deferred callbacks. */
  lemma PlacesEffect(s: State, t: State, cb: Callback)
    requires t.pending == s.pending && t.waiting == s.waiting && t.called == s.called
    ensures Owed(t) == Owed(s)
    ensures t.free == s.free && t.resetting == s.resetting ==> Idle(t) == Idle(s)
    ensures t.held == s.held ==> Busy(t) == Busy(s)
    ensures forall c | t.free == s.free + [c] && t.resetting == s.resetting :: Idle(t) == Idle(s) + multiset{c}
    ensures forall c | t.free == s.free && c !in s.resetting && t.resetting == s.resetting + {c} ::
              Idle(t) == Idle(s) + multiset{c}
    ensures forall c | t.free == s.free && c in s.resetting && t.resetting == s.resetting - {c} ::
              Idle(t) == Idle(s) - multiset{c} && c in Idle(s)
    ensures forall c | c !in s.held && t.held == s.held + {c} :: Busy(t) == Busy(s) + multiset{c}
    ensures forall c | c in s.held && t.held == s.held - {c} :: Busy(t) == Busy(s) - multiset{c}
  {
    hide Delivering, Connecting, Callbacks, Answered;
  }

  // ---------------------------------------------------------------- each step keeps the invariants

  lemma GetConnectionLinked(cfg: Config, s: State, cb: Callback, now: int)
    requires Linked(s, {})
    ensures Linked(GetConnection(cfg, s, cb, now), {})
    ensures Owed(GetConnection(cfg, s, cb, now)) == Owed(s) + multiset{cb}
  {
    hide LinkedAt, Idle, Busy, Owed;
    if s.closed {
      ScheduleEffect(s, Fail(cb));
    } else if s.free != [] {
      PopFreeEffect(s, cb);
    } else if cfg.connectionLimit == 0 || |s.all| < cfg.connectionLimit {
      CreateLinked(s.links, s.all, Idle(s), Busy(s), s.held, s.known, now);
      CreateEffect(s, cb, now);
    } else if !cfg.waitForConnections {
      ScheduleEffect(s, Fail(cb));
    } else if cfg.queueLimit > 0 && |s.waiting| >= cfg.queueLimit {
      CallEffect(s, cb, Refused);
    } else {
      WaitEffect(s, cb);
    }
  }

  lemma GetConnectionQueued(cfg: Config, s: State, cb: Callback, now: int)
    requires Queued(cfg, Schedule(s, Retry(cb)))
    ensures Queued(cfg, GetConnection(cfg, s, cb, now))
  {
    hide Retries, Idle, Busy, Owed;
    ScheduleEffect(s, Retry(cb));
    if s.closed {
      ScheduleEffect(s, Fail(cb));
    } else if s.free != [] {
      PopFreeEffect(s, cb);
    } else if cfg.connectionLimit == 0 || |s.all| < cfg.connectionLimit {
      CreateEffect(s, cb, now);
    } else if !cfg.waitForConnections {
      ScheduleEffect(s, Fail(cb));
    }
  }

  lemma RetryFirstSafe(cfg: Config, s: State)
    requires Linked(s, {})
    requires cfg.connectionLimit > 0 ==> |s.all| <= cfg.connectionLimit
    requires s.closed || cfg.connectionLimit == 0 || s.free != [] ==> s.waiting == []
    requires s.waiting != [] ==> |s.all| + Retries(s.pending) + 1 >= cfg.connectionLimit
    ensures Safe(cfg, RetryFirst(s)) && Owed(RetryFirst(s)) == Owed(s)
  {
    hide LinkedAt, Retries, Idle, Busy, Owed;
    if s.waiting != [] {
      NextWaitingEffect(s);
      ScheduleEffect(s.(waiting := s.waiting[1..]), Retry(s.waiting[0]));
    }
  }

  /** A released connection comes back, or goes straight to the first waiting caller. */
  lemma HandleSuccessfulReleaseSafe(cfg: Config, s: State, c: Conn)
    requires Linked(s, {c}) && Queued(cfg, s)
    requires c < |s.links| && s.links[c].released && c !in Idle(s)
    ensures Safe(cfg, HandleSuccessfulRelease(s, c)) && Owed(HandleSuccessfulRelease(s, c)) == Owed(s)
  {
    hide LinkedAt, Retries, Idle, Busy, Owed;
    PlaceLinked(s.links, s.all, Idle(s), Busy(s), s.held, s.known, s.closed, c);
    if s.waiting != [] {
      NextWaitingEffect(s);
      ScheduleEffect(s.(waiting := s.waiting[1..]), Deliver(s.waiting[0], c));
    } else {
      PlacesEffect(s, s.(free := s.free + [c]), 0);
    }
  }

  /** A connection that is not marked released belongs to whom it was handed to. */
  lemma HeldBy(s: State, c: Conn)
    requires Linked(s, {}) && c in s.known && c < |s.links| && !s.links[c].released
    ensures c in s.held && c in Busy(s)
  {
    hide Connecting;
  }

  lemma ResettingIsIdle(s: State, c: Conn)
    ensures c in s.resetting ==> c in Idle(s)
    ensures c in s.held ==> c in Busy(s)
  {
    hide Connecting, Delivering;
  }

  lemma ReleaseSafe(cfg: Config, s: State, c: Conn, now: int)
    requires Safe(cfg, s)
    ensures Safe(cfg, Release(cfg, s, c, now)) && Owed(Release(cfg, s, c, now)) == Owed(s)
  {
    hide LinkedAt, Retries, Idle, Busy, Owed;
    if Release(cfg, s, c, now) != s {
      HeldBy(s, c);
      ReleaseLinked(s.links, s.all, Idle(s), Busy(s), s.held, s.known, s.closed, c, now);
      var t := SetLink(s, c, Link(true, true, now)).(held := s.held - {c});
      PlacesEffect(s, t, 0);
      if cfg.resetOnRelease {
        PlaceLinked(t.links, t.all, Idle(t), Busy(t), t.held, t.known, t.closed, c);
        ResettingIsIdle(t, c);
        PlacesEffect(t, t.(resetting := t.resetting + {c}), 0);
      } else {
        HandleSuccessfulReleaseSafe(cfg, t, c);
      }
    }
  }

  lemma NotPooledNotListed(s: State, c: Conn)
    requires Linked(s, {})
    ensures c < |s.links| && !s.links[c].pooled ==> c !in s.all
  {
    assert c in s.all ==> multiset(s.all)[c] >= 1;
  }

  /** The pool forgets `c`: unpooled, and in neither list. */
  function Forget(s: State, c: Conn): State
    requires c < |s.links|
  {
    SetLink(s, c, s.links[c].(pooled := false)).(all := Without<Conn>(s.all, c), free := Without<Conn>(s.free, c))
  }

  lemma ForgetSafe(s: State, c: Conn)
    requires Linked(s, {c}) && c < |s.links|
    ensures Linked(Forget(s, c), {}) && Owed(Forget(s, c)) == Owed(s)
    ensures |s.all| - 1 <= |Forget(s, c).all| <= |s.all| && (s.free == [] ==> Forget(s, c).free == [])
  {
    WithoutElements<Conn>(s.all, c);
    WithoutElements<Conn>(s.free, c);
    hide LinkedAt, Retries, Delivering, Connecting, Callbacks, Answered, Without;
    var t := Forget(s, c);
    ForgetLinked(s.links, s.all, Idle(s), Busy(s), s.held, s.known, s.closed, c, t.all, Idle(t));
    assert Busy(t) == Busy(s);
  }

  lemma LinkedWeaker(s: State, c: Conn)
    requires Linked(s, {})
    ensures Linked(s, {c})
  {
    hide Idle, Busy;
    LostMore(s.links, s.all, Idle(s), Busy(s), s.held, s.known, s.closed, c);
  }

  lemma RemoveFromPoolSafe(cfg: Config, s: State, c: Conn)
    requires Linked(s, {c}) && Queued(cfg, s)
    ensures Safe(cfg, RemoveFromPool(cfg, s, c)) && Owed(RemoveFromPool(cfg, s, c)) == Owed(s)
    ensures !s.closed && c < |s.links| ==> c !in RemoveFromPool(cfg, s, c).all
  {
    hide LinkedAt, Retries, Idle, Busy, Owed, Without;
    if RemoveFromPool(cfg, s, c) != s {
      ForgetSafe(s, c);
      RetryFirstSafe(cfg, Forget(s, c));
    } else {
      NotMissed(s.links, s.all, Idle(s), Busy(s), s.held, s.known, s.closed, c);
    }
    NotPooledNotListed(RemoveFromPool(cfg, s, c), c);
  }

  /** A connection that nobody may use leaves its place. */
  lemma TakeIdleLinked(links: seq<Link>, all: seq<Conn>, idle: multiset<Conn>, busy: multiset<Conn>,
                       held: set<Conn>, known: set<Conn>, closed: bool, c: Conn)
    requires LinkedAt(links, all, idle, busy, held, known, closed, {}) && c in idle
    ensures LinkedAt(links, all, idle - multiset{c}, busy, held, known, closed, {c})
    ensures c < |links| && links[c].released && c !in idle - multiset{c}
  {
  }

  lemma ResetDoneSafe(cfg: Config, s: State, c: Conn, ok: bool)
    requires Safe(cfg, s)
    ensures Safe(cfg, ResetDone(s, c, ok)) && Owed(ResetDone(s, c, ok)) == Owed(s)
  {
    hide LinkedAt, Retries, Idle, Busy, Owed, Without;
    if c in s.resetting && c < |s.links| {
      var t := s.(resetting := s.resetting - {c});
      PlacesEffect(s, t, 0);
      ResettingIsIdle(s, c);
      TakeIdleLinked(s.links, s.all, Idle(s), Busy(s), s.held, s.known, s.closed, c);
      if ok {
        HandleSuccessfulReleaseSafe(cfg, t, c);
      } else {
        FailedResetSafe(cfg, t, c);
      }
    }
  }

  lemma FailedResetSafe(cfg: Config, t: State, c: Conn)
    requires Linked(t, {c}) && Queued(cfg, t) && c < |t.links| && c !in Idle(t)
    ensures var r := RetryFirst(SetLink(t, c, t.links[c].(pooled := false)).(all := Without<Conn>(t.all, c)));
            Safe(cfg, r) && Owed(r) == Owed(t)
  {
    NotFree(t, c);
    hide LinkedAt, Retries, Idle, Busy, Owed, Without;
    ForgetSafe(t, c);
    RetryFirstSafe(cfg, Forget(t, c));
  }

  lemma NotFree(s: State, c: Conn)
    requires c !in Idle(s)
    ensures Without<Conn>(s.free, c) == s.free
  {
    assert c !in multiset(s.free);
    WithoutAbsent<Conn>(s.free, c);
  }

  lemma {:induction false} WithoutAbsent<T>(s: seq<T>, x: T)
    requires x !in s
    ensures Without(s, x) == s
  {
    if s != [] {
      WithoutAbsent(s[1..], x);
    }
  }

  lemma HandOutEffect(s: State, cb: Callback, c: Conn)
    ensures var t := HandOut(s, cb, c);
            && Idle(t) == Idle(s) && Owed(t) == Owed(s) + multiset{cb}
            && (c !in s.held ==> Busy(t) == Busy(s) + multiset{c})
  {
    hide Idle, Busy, Owed;
    CallEffect(s, cb, Got(c));
    PlacesEffect(Call(s, cb, Got(c)), HandOut(s, cb, c), 0);
  }

  lemma DeliverSafe(cfg: Config, s: State, i: nat)
    requires Safe(cfg, s) && i < |s.pending| && s.pending[i].Deliver?
    ensures Safe(cfg, RunTask(cfg, s, i, 0)) && Owed(RunTask(cfg, s, i, 0)) == Owed(s)
  {
    hide LinkedAt, Retries, Idle, Busy, Owed;
    TakeEffect(s, i);
    var t, cb, c := s.(pending := RemoveAt(s.pending, i)), s.pending[i].cb, s.pending[i].conn;
    if c < |s.links| {
      var u := SetLink(t, c, s.links[c].(released := false));
      DeliverLinked(s.links, s.all, Idle(s), Busy(s), s.held, s.known, s.closed, c);
      ResettingIsIdle(s, c);
      PlacesEffect(t, u, 0);
      HandOutEffect(u, cb, c);
    }
  }

  lemma RunTaskSafe(cfg: Config, s: State, i: nat, now: int)
    requires Safe(cfg, s)
    ensures Safe(cfg, RunTask(cfg, s, i, now)) && Owed(RunTask(cfg, s, i, now)) == Owed(s)
  {
    hide LinkedAt, Retries, Idle, Busy, Owed, GetConnection, HandOut;
    if i < |s.pending| {
      TakeEffect(s, i);
      var t := s.(pending := RemoveAt(s.pending, i));
      match s.pending[i]
      case Fail(cb) => CallEffect(t, cb, Refused);
      case Retry(cb) =>
        ScheduleEffect(t, Retry(cb));
        GetConnectionLinked(cfg, t, cb, now);
        GetConnectionQueued(cfg, t, cb, now);
      case Deliver(cb, c) => DeliverSafe(cfg, s, i);
      case Connect(_, _) =>
    }
  }

  lemma ConnectedSafe(cfg: Config, s: State, i: nat, ok: bool)
    requires Safe(cfg, s)
    ensures Safe(cfg, Connected(cfg, s, i, ok)) && Owed(Connected(cfg, s, i, ok)) == Owed(s)
  {
    hide LinkedAt, Retries, Idle, Busy, Owed, RemoveFromPool;
    if i < |s.pending| && s.pending[i].Connect? {
      TakeEffect(s, i);
      var t, cb, c := s.(pending := RemoveAt(s.pending, i)), s.pending[i].cb, s.pending[i].conn;
      TakeBusyLinked(s.links, s.all, Idle(s), Busy(s), s.held, s.known, s.closed, c);
      if !ok {
        RemoveFromPoolSafe(cfg, t, c);
        CallEffect(RemoveFromPool(cfg, t, c), cb, Refused);
      } else if s.closed {
        NotMissed(t.links, t.all, Idle(t), Busy(t), t.held, t.known, t.closed, c);
        CallEffect(t, cb, Refused);
      } else {
        BusyOnce(s, c);
        ResettingIsIdle(t, c);
        ConnectedLinked(s.links, s.all, Idle(s), Busy(s), s.held, s.known, s.closed, c);
        HandOutEffect(t, cb, c);
      }
    }
  }

  lemma BusyOnce(s: State, c: Conn)
    requires Linked(s, {})
    ensures c !in Busy(s) - multiset{c}
    ensures c in Busy(s) ==> (Busy(s) - multiset{c}) + multiset{c} == Busy(s)
  {
    hide Idle, Busy;
  }

  lemma EndSafe(cfg: Config, s: State)
    requires Safe(cfg, s)
    ensures Safe(cfg, End(s)) && Owed(End(s)) == Owed(s)
  {
    FailAllTasks(s.pending, s.waiting);
    hide Retries, Delivering, Connecting, Callbacks, Answered, FailAll;
    var t := End(s);
    assert Idle(t) == Idle(s) && Busy(t) == Busy(s);
  }

  // ---------------------------------------------------------------- every run

  lemma StepSafe(cfg: Config, s: State, e: Event, now: int)
    requires Safe(cfg, s)
    ensures Safe(cfg, Step(cfg, s, e, now))
    ensures Owed(Step(cfg, s, e, now)) == Owed(s) + if e.EvGet? then multiset{e.cb} else multiset{}
  {
    hide LinkedAt, Retries, Idle, Busy, Owed, GetConnection, RunTask, Connected, Release, RemoveFromPool, ResetDone,
      End;
    match e
    case EvGet(cb) =>
      GetSafe(cfg, s, cb, now);
    case EvTask(i) => RunTaskSafe(cfg, s, i, now);
    case EvConnected(i, ok) => ConnectedSafe(cfg, s, i, ok);
    case EvRelease(c) => ReleaseSafe(cfg, s, c, now);
    case EvLost(c) =>
      LinkedWeaker(s, c);
      RemoveFromPoolSafe(cfg, s, c);
    case EvReset(c, ok) => ResetDoneSafe(cfg, s, c, ok);
    case EvEnd => EndSafe(cfg, s);
  }

  lemma GetSafe(cfg: Config, s: State, cb: Callback, now: int)
    requires Safe(cfg, s)
    ensures Safe(cfg, GetConnection(cfg, s, cb, now))
    ensures Owed(GetConnection(cfg, s, cb, now)) == Owed(s) + multiset{cb}
  {
    hide LinkedAt, Retries, Idle, Busy, Owed, GetConnection;
    ScheduleEffect(s, Retry(cb));
    GetConnectionLinked(cfg, s, cb, now);
    GetConnectionQueued(cfg, s, cb, now);
  }

  /** In every state of every run the pool is safe, and every callback passed to `getConnection` is in
      exactly one place: waiting, on its way, or called. */
  lemma {:induction false} RunSafe(cfg: Config, events: seq<(Event, int)>)
    ensures Safe(cfg, Run(cfg, events))
    ensures Owed(Run(cfg, events)) == Issued(events)
  {
    if events == [] {
    } else {
      var (e, now) := events[|events| - 1];
      RunSafe(cfg, events[..|events| - 1]);
      StepSafe(cfg, Run(cfg, events[..|events| - 1]), e, now);
    }
  }

  /** What safety means for connections: the limit holds, none is listed twice, and a connection in
      somebody's hands is nowhere else, so that nobody else can get it. */
  lemma OneHolder(cfg: Config, events: seq<(Event, int)>)
    ensures var s := Run(cfg, events);
            && (cfg.connectionLimit > 0 ==> |s.all| <= cfg.connectionLimit)
            && (forall i, j :: 0 <= i < j < |s.all| ==> s.all[i] != s.all[j])
            && (forall i, j :: 0 <= i < j < |s.free| ==> s.free[i] != s.free[j])
            && (s.free != [] ==> s.waiting == [])
            && (forall c :: c in s.held || c in s.resetting ==> c !in s.free)
            && (forall c :: c in s.held ==> c !in s.resetting)
            && (forall t :: t in s.pending && t.Deliver? ==>
                  t.conn !in s.held && t.conn !in s.free && t.conn !in s.resetting)
            && (forall i, j :: 0 <= i < j < |s.pending| && s.pending[i].Deliver? && s.pending[j].Deliver? ==>
                  s.pending[i].conn != s.pending[j].conn)
  {
    RunSafe(cfg, events);
    hide Run, Linked;
    var s := Run(cfg, events);
    ListedOnce(s);
    InOnePlace(s);
    DeliveredOnce(s);
  }

  lemma ListedOnce(s: State)
    requires Linked(s, {})
    ensures forall i, j :: 0 <= i < j < |s.all| ==> s.all[i] != s.all[j]
    ensures forall i, j :: 0 <= i < j < |s.free| ==> s.free[i] != s.free[j]
    ensures forall c :: c in s.held || c in s.resetting ==> c !in s.free
  {
    hide Linked;
    forall c
      ensures multiset(s.all)[c] <= 1 && multiset(s.free)[c] <= 1
    {
      FreeOnce(s, c);
      AllOnce(s, c);
    }
    OnceEach(s.all);
    OnceEach(s.free);
    forall c | c in s.held || c in s.resetting ensures c !in s.free {
      FreeOnce(s, c);
    }
  }

  lemma AllOnce(s: State, c: Conn)
    requires Linked(s, {})
    ensures multiset(s.all)[c] <= 1
  {
    hide Idle, Busy;
    assert c in multiset(s.all) ==> c in s.all;
  }

  lemma InOnePlace(s: State)
    requires Linked(s, {})
    ensures forall c :: c in s.held ==> c !in s.resetting
    ensures forall t :: t in s.pending && t.Deliver? ==>
            t.conn !in s.held && t.conn !in s.free && t.conn !in s.resetting
  {
    hide Linked;
    forall c | c in s.held ensures c !in s.resetting {
      NotBoth(s, c);
    }
    forall t | t in s.pending && t.Deliver? ensures t.conn !in s.held && t.conn !in s.free && t.conn !in s.resetting {
      DeliveringOf(s.pending, t);
      NotBoth(s, t.conn);
    }
  }

  lemma NotBoth(s: State, c: Conn)
    requires Linked(s, {})
    ensures c in s.held ==> c !in s.resetting
    ensures c in Delivering(s.pending) ==>
              c !in s.held && c !in s.free && c !in s.resetting && Delivering(s.pending)[c] == 1
  {
    hide Delivering, Connecting;
    assert c in s.held ==> c in Busy(s);
    assert c in s.resetting || c in Delivering(s.pending) ==> c in Idle(s) && Idle(s)[c] == 1;
    assert c in s.free ==> multiset(s.free)[c] >= 1;
  }

  lemma DeliveredOnce(s: State)
    requires Linked(s, {})
    ensures forall i, j :: 0 <= i < j < |s.pending| && s.pending[i].Deliver? && s.pending[j].Deliver? ==>
              s.pending[i].conn != s.pending[j].conn
  {
    hide Linked, Delivering;
    forall i, j | 0 <= i < j < |s.pending| && s.pending[i].Deliver? && s.pending[j].Deliver?
      ensures s.pending[i].conn != s.pending[j].conn
    {
      var rest := RemoveAt(s.pending, j);
      TasksAt(s.pending, j);
      assert rest[i] == s.pending[i];
      DeliveringOf(rest, rest[i]);
      NotBoth(s, s.pending[j].conn);
    }
  }

  lemma OnceEach<T>(s: seq<T>)
    requires forall x :: multiset(s)[x] <= 1
    ensures forall i, j :: 0 <= i < j < |s| ==> s[i] != s[j]
  {
    forall i, j | 0 <= i < j < |s|
      ensures s[i] != s[j]
    {
      assert s == s[..j] + [s[j]] + s[j + 1..];
      assert s[..j][i] in multiset(s[..j]);
      assert multiset(s)[s[j]] <= 1;
    }
  }

  lemma {:induction false} DeliveringOf(tasks: seq<Task>, t: Task)
    requires t in tasks && t.Deliver?
    ensures t.conn in Delivering(tasks)
  {
    if t != tasks[|tasks| - 1] {
      assert t in tasks[..|tasks| - 1];
      DeliveringOf(tasks[..|tasks| - 1], t);
    }
  }

  /** No lost wakeup: while a caller waits in an open pool and no retry is scheduled, as many connections
      as the limit allows exist, and every one of them is in use, in transit or being reset. */
  lemma NoLostWakeup(cfg: Config, events: seq<(Event, int)>)
    ensures var s := Run(cfg, events);
            s.waiting != [] ==>
              && !s.closed && cfg.connectionLimit > 0
              && |s.all| + Retries(s.pending) >= cfg.connectionLimit
              && (Retries(s.pending) == 0 ==> |s.all| == cfg.connectionLimit)
              && forall c :: c in s.all ==>
                   c in Delivering(s.pending) || c in Connecting(s.pending) || c in s.resetting || c in s.held
  {
    RunSafe(cfg, events);
    hide Run, Retries, Delivering, Connecting;
  }

  /** A callback issued once is in exactly one place. */
  lemma CalledAtMostOnce(cfg: Config, events: seq<(Event, int)>, cb: Callback)
    requires Issued(events)[cb] == 1
    ensures var s := Run(cfg, events);
            multiset(s.waiting)[cb] + Callbacks(s.pending)[cb] + Answered(s.called)[cb] == 1
  {
    RunSafe(cfg, events);
    hide Run, Callbacks, Answered;
    assert Owed(Run(cfg, events))[cb] == 1;
  }

  // ---------------------------------------------------------------- free connections are listed

  /** Every free connection still belongs to the pool. */
  ghost predicate FreeListed(s: State) {
    forall c :: c in s.free ==> c < |s.links| && s.links[c].pooled
  }

  /** A reset that succeeds after its connection was removed from the pool, with nobody waiting. */
  predicate LateReset(s: State, e: Event) {
    e.EvReset? && e.ok && e.c in s.resetting && e.c < |s.links| && !s.links[e.c].pooled && s.waiting == []
  }

  lemma {:induction false} WithoutMembers<T>(s: seq<T>, x: T)
    ensures forall y :: y in Without(s, x) ==> y in s
    ensures multiset(s)[x] <= 1 ==> x !in Without(s, x)
  {
    WithoutElements(s, x);
    assert forall y :: y in Without(s, x) ==> y in multiset(Without(s, x));
    assert forall y :: y in multiset(s) ==> y in s;
  }

  lemma FreeListedGet(cfg: Config, s: State, cb: Callback, now: int)
    requires FreeListed(s)
    ensures FreeListed(GetConnection(cfg, s, cb, now))
  {
    var t := GetConnection(cfg, s, cb, now);
    forall c | c in t.free
      ensures c < |t.links| && t.links[c].pooled
    {
      assert c in s.free;
    }
  }

  lemma FreeListedForget(cfg: Config, s: State, c: Conn)
    requires FreeListed(s) && c < |s.links| && multiset(s.free)[c] <= 1
    ensures FreeListed(Forget(s, c)) && FreeListed(RetryFirst(Forget(s, c)))
  {
    WithoutMembers<Conn>(s.free, c);
    hide Without;
  }

  lemma FreeListedRemove(cfg: Config, s: State, c: Conn)
    requires FreeListed(s) && (c < |s.links| ==> multiset(s.free)[c] <= 1)
    ensures FreeListed(RemoveFromPool(cfg, s, c))
  {
    if RemoveFromPool(cfg, s, c) != s {
      FreeListedForget(cfg, s, c);
    }
  }

  lemma FreeOnce(s: State, c: Conn)
    requires Linked(s, {})
    ensures multiset(s.free)[c] <= 1
    ensures c in s.resetting || c in s.held ==> c !in s.free
  {
    hide Delivering, Connecting;
    assert c in Idle(s) ==> Idle(s)[c] == 1;
    assert c in multiset(s.free) ==> c in Idle(s);
  }

  /** Free connections stay listed exactly up to the first late reset. */
  lemma FreeListedStep(cfg: Config, s: State, e: Event, now: int)
    requires Safe(cfg, s) && FreeListed(s)
    ensures FreeListed(Step(cfg, s, e, now)) <==> !LateReset(s, e)
  {
    hide Linked, Retries, Idle, Busy, Owed, GetConnection, RemoveFromPool;
    match e
    case EvGet(cb) => FreeListedGet(cfg, s, cb, now);
    case EvTask(i) => FreeListedTask(cfg, s, i, now);
    case EvConnected(i, ok) =>
      if i < |s.pending| && s.pending[i].Connect? {
        FreeOnce(s, s.pending[i].conn);
        FreeListedRemove(cfg, s.(pending := RemoveAt(s.pending, i)), s.pending[i].conn);
      }
    case EvRelease(c) => FreeListedRelease(cfg, s, c, now);
    case EvLost(c) =>
      FreeOnce(s, c);
      FreeListedRemove(cfg, s, c);
    case EvReset(c, ok) => FreeListedReset(cfg, s, c, ok);
    case EvEnd =>
  }

  lemma FreeListedTask(cfg: Config, s: State, i: nat, now: int)
    requires FreeListed(s)
    ensures FreeListed(RunTask(cfg, s, i, now))
  {
    hide GetConnection;
    if i < |s.pending| && s.pending[i].Retry? {
      FreeListedGet(cfg, s.(pending := RemoveAt(s.pending, i)), s.pending[i].cb, now);
    }
  }

  lemma FreeListedRelease(cfg: Config, s: State, c: Conn, now: int)
    requires FreeListed(s)
    ensures FreeListed(Release(cfg, s, c, now))
  {
  }

  lemma FreeListedReset(cfg: Config, s: State, c: Conn, ok: bool)
    requires Linked(s, {}) && FreeListed(s)
    ensures FreeListed(ResetDone(s, c, ok)) <==> !LateReset(s, EvReset(c, ok))
  {
    hide Linked, Without;
    FreeOnce(s, c);
    if c in s.resetting && c < |s.links| && ok && s.waiting == [] {
      assert ResetDone(s, c, ok).free[|s.free|] == c;
    }
  }

  /** No prefix of the run is followed by a late reset. */
  ghost predicate NoLateReset(cfg: Config, events: seq<(Event, int)>) {
    forall k :: 0 <= k < |events| ==> !LateReset(Run(cfg, events[..k]), events[k].0)
  }

  /** In a run without late resets every free connection belongs to the pool. */
  lemma {:induction false} RunFreeListed(cfg: Config, events: seq<(Event, int)>)
    requires NoLateReset(cfg, events)
    ensures FreeListed(Run(cfg, events))
  {
    hide Run, LateReset, FreeListed;
    if events == [] {
      NothingFree(cfg);
    } else {
      var n := |events| - 1;
      PrefixNoLateReset(cfg, events, n);
      RunFreeListed(cfg, events[..n]);
      RunSafe(cfg, events[..n]);
      FreeListedStep(cfg, Run(cfg, events[..n]), events[n].0, events[n].1);
      NextState(cfg, events, n);
      assert events[..n + 1] == events;
    }
  }

  lemma NothingFree(cfg: Config)
    ensures FreeListed(Run(cfg, []))
  {
  }

  lemma PrefixNoLateReset(cfg: Config, events: seq<(Event, int)>, n: nat)
    requires NoLateReset(cfg, events) && n <= |events|
    ensures NoLateReset(cfg, events[..n])
  {
    hide Run, LateReset;
    forall k | 0 <= k < n ensures !LateReset(Run(cfg, events[..n][..k]), events[..n][k].0) {
      assert events[..n][..k] == events[..k];
    }
  }

  /** Free connections belong to the pool all along a run exactly when no late reset happens in it. */
  lemma RunFreeListedExactly(cfg: Config, events: seq<(Event, int)>)
    ensures (forall n :: 0 <= n <= |events| ==> FreeListed(Run(cfg, events[..n]))) <==> NoLateReset(cfg, events)
  {
    hide Run, LateReset, FreeListed, NoLateReset;
    if NoLateReset(cfg, events) {
      forall n | 0 <= n <= |events| ensures FreeListed(Run(cfg, events[..n])) {
        PrefixNoLateReset(cfg, events, n);
        RunFreeListed(cfg, events[..n]);
      }
    } else if forall n :: 0 <= n <= |events| ==> FreeListed(Run(cfg, events[..n])) {
      forall k | 0 <= k < |events| ensures !LateReset(Run(cfg, events[..k]), events[k].0) {
        RunSafe(cfg, events[..k]);
        FreeListedStep(cfg, Run(cfg, events[..k]), events[k].0, events[k].1);
        NextState(cfg, events, k);
        assert FreeListed(Run(cfg, events[..k + 1]));
      }
      AllNoLateReset(cfg, events);
    }
  }

  lemma NextState(cfg: Config, events: seq<(Event, int)>, k: nat)
    requires k < |events|
    ensures Run(cfg, events[..k + 1]) == Step(cfg, Run(cfg, events[..k]), events[k].0, events[k].1)
  {
    hide Step;
    assert events[..k + 1][..k] == events[..k];
  }

  lemma AllNoLateReset(cfg: Config, events: seq<(Event, int)>)
    requires forall k :: 0 <= k < |events| ==> !LateReset(Run(cfg, events[..k]), events[k].0)
    ensures NoLateReset(cfg, events)
  {
    hide Run, LateReset;
  }

  // ---------------------------------------------------------------- connections on their way are listed

  /** The same reset while a caller waits: the removed connection goes to that caller. */
  predicate LateHandOver(s: State, e: Event) {
    e.EvReset? && e.ok && e.c in s.resetting && e.c < |s.links| && !s.links[e.c].pooled && s.waiting != []
  }

  /** The step puts a connection on its way to a caller, and it is this one. */
  ghost predicate Sends(s: State, t: State, c: Conn) {
    Delivering(t.pending)[c] > Delivering(s.pending)[c]
  }

  ghost predicate SendsUnlisted(s: State, t: State) {
    exists c: Conn :: Sends(s, t, c) && (c < |t.links| ==> !t.links[c].pooled)
  }

  lemma GetSends(cfg: Config, s: State, cb: Callback, now: int)
    requires FreeListed(s)
    ensures !SendsUnlisted(s, GetConnection(cfg, s, cb, now))
  {
    hide Delivering, Connecting, Retries, Callbacks;
    var t := GetConnection(cfg, s, cb, now);
    if |t.pending| > |s.pending| {
      TasksSnoc(s.pending, t.pending[|s.pending|]);
      assert s.free != [] ==> s.free[|s.free| - 1] in s.free;
    }
  }

  lemma RetryFirstSends(s: State)
    ensures Delivering(RetryFirst(s).pending) == Delivering(s.pending)
  {
    hide Delivering;
    if s.waiting != [] {
      TasksSnoc(s.pending, Retry(s.waiting[0]));
    }
  }

  lemma HandleSends(s: State, c: Conn)
    ensures Delivering(HandleSuccessfulRelease(s, c).pending) ==
            Delivering(s.pending) + if s.waiting == [] then multiset{} else multiset{c}
  {
    hide Delivering;
    if s.waiting != [] {
      TasksSnoc(s.pending, Deliver(s.waiting[0], c));
    }
  }

  lemma RemoveSends(cfg: Config, s: State, c: Conn)
    ensures Delivering(RemoveFromPool(cfg, s, c).pending) == Delivering(s.pending)
  {
    hide Delivering, RetryFirst;
    if RemoveFromPool(cfg, s, c) != s {
      RetryFirstSends(SetLink(s, c, s.links[c].(pooled := false)).(
        all := Without<Conn>(s.all, c), free := Without<Conn>(s.free, c)));
    }
  }

  lemma TaskSends(cfg: Config, s: State, i: nat, now: int)
    requires FreeListed(s)
    ensures !SendsUnlisted(s, RunTask(cfg, s, i, now))
  {
    hide Delivering, GetConnection;
    if i < |s.pending| {
      TasksAt(s.pending, i);
      if s.pending[i].Retry? {
        var t := s.(pending := RemoveAt(s.pending, i));
        GetSends(cfg, t, s.pending[i].cb, now);
        assert forall c: Conn :: Sends(s, GetConnection(cfg, t, s.pending[i].cb, now), c) ==>
                                 Sends(t, GetConnection(cfg, t, s.pending[i].cb, now), c);
      }
    }
  }

  lemma ConnectedSends(cfg: Config, s: State, i: nat, ok: bool)
    ensures Delivering(Connected(cfg, s, i, ok).pending) == Delivering(s.pending)
  {
    hide Delivering, Connecting, Retries, Callbacks, RemoveFromPool;
    if i < |s.pending| && s.pending[i].Connect? {
      TasksAt(s.pending, i);
      RemoveSends(cfg, s.(pending := RemoveAt(s.pending, i)), s.pending[i].conn);
    }
  }

  lemma EndSends(s: State)
    ensures Delivering(End(s).pending) == Delivering(s.pending)
  {
    hide Delivering, Connecting, Retries, Callbacks, FailAll;
    FailAllTasks(s.pending, s.waiting);
  }

  lemma NothingSent(s: State, t: State)
    requires Delivering(t.pending) == Delivering(s.pending)
    ensures !SendsUnlisted(s, t)
  {
    hide Delivering;
  }

  lemma ReleaseSends(cfg: Config, s: State, c: Conn, now: int)
    ensures !SendsUnlisted(s, Release(cfg, s, c, now))
  {
    hide Delivering, HandleSuccessfulRelease;
    if Release(cfg, s, c, now) != s {
      var t := SetLink(s, c, Link(true, true, now)).(held := s.held - {c});
      HandleSends(t, c);
      HandleKeepsLinks(t, c);
    }
  }

  lemma HandleKeepsLinks(s: State, c: Conn)
    ensures HandleSuccessfulRelease(s, c).links == s.links
  {
  }

  lemma ResetSends(s: State, c: Conn, ok: bool)
    ensures SendsUnlisted(s, ResetDone(s, c, ok)) <==> LateHandOver(s, EvReset(c, ok))
  {
    hide Delivering, HandleSuccessfulRelease, RetryFirst;
    if c in s.resetting && c < |s.links| {
      var t := s.(resetting := s.resetting - {c});
      if ok {
        HandleSends(t, c);
        HandleKeepsLinks(t, c);
        assert s.waiting != [] ==> Sends(s, ResetDone(s, c, ok), c);
      } else {
        RetryFirstSends(SetLink(t, c, s.links[c].(pooled := false)).(all := Without<Conn>(s.all, c)));
      }
    }
  }

  /** A step puts a connection that the pool does not list on its way to a caller exactly when a reset that
      ends after its connection was removed finds a caller waiting. */
  lemma UnlistedSentExactly(cfg: Config, s: State, e: Event, now: int)
    requires FreeListed(s)
    ensures SendsUnlisted(s, Step(cfg, s, e, now)) <==> LateHandOver(s, e)
  {
    hide Delivering, GetConnection, RunTask, Connected, Release, RemoveFromPool, ResetDone, End, FreeListed,
      SendsUnlisted;
    match e
    case EvGet(cb) => GetSends(cfg, s, cb, now);
    case EvTask(i) => TaskSends(cfg, s, i, now);
    case EvConnected(i, ok) =>
      ConnectedSends(cfg, s, i, ok);
      NothingSent(s, Connected(cfg, s, i, ok));
    case EvRelease(c) => ReleaseSends(cfg, s, c, now);
    case EvLost(c) =>
      RemoveSends(cfg, s, c);
      NothingSent(s, RemoveFromPool(cfg, s, c));
    case EvReset(c, ok) => ResetSends(s, c, ok);
    case EvEnd =>
      EndSends(s);
      NothingSent(s, End(s));
  }

  /** Releasing a connection and ending it while its reset is under way. */
  lemma RemovedWhileReset() returns (cfg: Config, events: seq<(Event, int)>)
    ensures cfg == Config(1, true, 0, 1, 0, true)
    ensures Run(cfg, events) == State([Link(false, true, 0)], [], [], [], false, [], {0}, {}, {0}, [(7, Got(0))])
  {
    cfg := Config(1, true, 0, 1, 0, true);
    events := [];
    var s := EMPTY;
    events, s := events + [(EvGet(7), 0)], Then(cfg, events, EvGet(7));
    assert s == State([Link(true, false, 0)], [0], [], [], false, [Connect(7, 0)], {}, {}, {}, []);
    events, s := events + [(EvConnected(0, true), 0)], Then(cfg, events, EvConnected(0, true));
    assert s == State([Link(true, false, 0)], [0], [], [], false, [], {}, {0}, {0}, [(7, Got(0))]);
    events, s := events + [(EvRelease(0), 0)], Then(cfg, events, EvRelease(0));
    assert s == State([Link(true, true, 0)], [0], [], [], false, [], {0}, {}, {0}, [(7, Got(0))]);
    events, s := events + [(EvLost(0), 0)], Then(cfg, events, EvLost(0));
  }

  /** The end of the reset then leaves a free connection that the pool no longer lists. */
  lemma LateResetRun() returns (cfg: Config, events: seq<(Event, int)>)
    ensures var s := Run(cfg, events); s.free == [0] && s.all == []
  {
    cfg, events := RemovedWhileReset();
    var s := Then(cfg, events, EvReset(0, true));
    events := events + [(EvReset(0, true), 0)];
  }

  /** Or, with a caller waiting, connection 0 is on its way to that caller while the pool lists only 1. */
  lemma LateHandOverRun() returns (cfg: Config, events: seq<(Event, int)>)
    ensures var s := Run(cfg, events); Deliver(9, 0) in s.pending && s.all == [1]
  {
    cfg, events := RemovedWhileReset();
    var s: State;
    events, s := events + [(EvGet(8), 0)], Then(cfg, events, EvGet(8));
    events, s := events + [(EvGet(9), 0)], Then(cfg, events, EvGet(9));
    assert s.resetting == {0} && |s.links| == 2 && s.all == [1] && s.waiting == [9];
    events, s := events + [(EvReset(0, true), 0)], Then(cfg, events, EvReset(0, true));
  }

  /** The state after one more event. */
  ghost function Then(cfg: Config, events: seq<(Event, int)>, e: Event): (s: State)
    ensures s == Run(cfg, events + [(e, 0)]) == Step(cfg, Run(cfg, events), e, 0)
  {
    assert (events + [(e, 0)])[..|events|] == events;
    Run(cfg, events + [(e, 0)])
  }
}
